/**
 The kernel's console state - one text page, three saved pages, the shared key
 buffer and the records of the terminals not on display - and the routines that
 update it in place.  Each routine is proved against the desk of three virtual
 terminals (Desks.dfy).
 */
module Consoles {
  import opened Common
  import opened Display
  import opened LineEditor
  import opened Desks

  const PAGE := 2048        // cells in one 4 KB page
  const MEMORY := 8192      // video page and the three saved pages behind it
  const BAR_END := 2000     // CELLS + COLS: the page has a 25th row
  const KEYS := 129         // KEY_ARR_SIZE + 1
  const KEY_COPY := 128     // KEY_ARR_SIZE_OLD
  const ATTR_BAR: byte := 0xF0
  const ATTR_HIGH: byte := 0xFD
  const BAR_TEXT_LEN := 10

  /** First cell of the saved page of a terminal. */
  function Saved(t: nat): nat { PAGE * (t + 1) }

  function High(t: nat): nat
    requires t < TERMINALS
  {
    if t == 0 then 13 else if t == 1 then 35 else 57
  }

  /** `TERMINAL n` */
  function Label(n: byte): (r: seq<byte>)
    ensures |r| == BAR_TEXT_LEN
  {
    [84, 69, 82, 77, 73, 78, 65, 76, 32, n]
  }

  function Spaces(n: nat): (r: seq<byte>)
    ensures |r| == n
  {
    seq(n, _ => SPACE)
  }

  function BarText(): (r: seq<byte>)
    ensures |r| == COLS
  {
    Spaces(13) + Label(49) + Spaces(12) + Label(50) + Spaces(12) + Label(51) + Spaces(13)
  }

  function BarCell(current: nat, i: nat): Cell
    requires current < TERMINALS && i < COLS
  {
    Cell(BarText()[i],
         if High(current) <= i < High(current) + BAR_TEXT_LEN then ATTR_HIGH else ATTR_BAR)
  }

  /** A switch to a terminal that neither runs nor can be started only prints the
      kernel's message of refusal. */
  function SwitchOp(current: nat, t: nat, canStart: bool, refusal: seq<byte>): Op {
    if t < TERMINALS && t != current && !canStart then OpPrint(refusal) else OpSwitch(t)
  }

  /** `current tid: ` and the number, with a newline. */
  function TidLine(t: nat): seq<byte>
    requires t < TERMINALS
  {
    [99, 117, 114, 114, 101, 110, 116, 32, 116, 105, 100, 58, 32, 48 + t, LF]
  }

  lemma TidLineIsSpelled(t: nat)
    requires t < TERMINALS
    ensures Spells(TidLine(t), "current tid: " + [(48 + t) as char] + "\n")
  {
  }

  /** The bar names the three terminals, and is blank between. */
  lemma BarNamesTerminals(t: nat, i: nat)
    requires t < TERMINALS && i < COLS
    ensures High(t) + 10 <= COLS && Spells(BarText()[High(t)..High(t) + 10], "TERMINAL " + [(49 + t) as char])
    ensures High(0) + 10 < High(1) && High(1) + 10 < High(2)
    ensures BarText()[i] != SPACE ==> exists u :: 0 <= u < TERMINALS && High(u) <= i < High(u) + 10
  {
    var text := BarText();
    assert text[High(t)..High(t) + 10] == Label(49 + t);
    assert text[i] == SPACE || 13 <= i < 23 || 35 <= i < 45 || 57 <= i < 67;
    assert High(0) == 13 && High(1) == 35 && High(2) == 57;
  }

  /** It highlights exactly the cells that name the terminal on display. */
  lemma HighlightNamesTerminal(t: nat, i: nat)
    requires t < TERMINALS && i < COLS
    ensures BarCell(t, i).ch == BarText()[i]
    ensures BarCell(t, i).attr == if High(t) <= i < High(t) + 10 then 0xFD else 0xF0
    ensures High(t) <= i < High(t) + 10 ==>
              BarCell(t, i).ch == ("TERMINAL " + [(49 + t) as char])[i - High(t)] as int
  {
    BarNamesTerminals(t, i);
    if High(t) <= i < High(t) + 10 {
      assert BarText()[High(t)..High(t) + 10][i - High(t)] == BarText()[i];
    }
  }

  /** Asking for a terminal that runs or can start shows it; for another one, only the
      refusal is printed on the terminal on display. */
  lemma SwitchOpShows(d: Desk, t: nat, canStart: bool, refusal: seq<byte>)
    requires DeskSound(d) && t < TERMINALS && t != d.current
    ensures var r := Step(d, SwitchOp(d.current, t, canStart, refusal));
            if canStart then r == Switch(d, t) && r.current == t
            else r == KernelPrint(d, refusal) && r.current == d.current
                 && forall u :: 0 <= u < TERMINALS && u != d.current ==> r.terms[u] == d.terms[u]
  {
  }

  /** What is remembered of a terminal that is not on display; its keys and its
      cells are kept in `keysOld` and in its saved page. */
  datatype TerminalInfo =
    TerminalInfo(x: byte, y: byte, keyPtr: byte, keyOverflow: byte, rowStack: byte, column: byte)

  /** Parking what is on display and showing what was parked is a switch. */
  lemma ParkAndShowIsSwitch(kept: seq<Terminal>, shown: Terminal, current: nat, t: nat)
    requires |kept| == TERMINALS && current < TERMINALS && t < TERMINALS && t != current
    requires Sound(shown) && forall u :: 0 <= u < TERMINALS ==> Sound(kept[u])
    ensures var d := Desk(kept[current := shown], current);
            DeskSound(d) && Desk(kept[current := Parked(shown)][t := Parked(kept[t])], t) == Switch(d, t)
  {
    var d := Desk(kept[current := shown], current);
    assert kept[current := Parked(shown)][t := Parked(kept[t])] == Switch(d, t).terms;
  }

  lemma StoreIsUpdate(kept: seq<Terminal>, shown: Terminal, current: nat, t: nat, term: Terminal)
    requires |kept| == TERMINALS && current < TERMINALS && t < TERMINALS && t != current
    requires Sound(shown) && Sound(term) && forall u :: 0 <= u < TERMINALS ==> Sound(kept[u])
    ensures var d := Desk(kept[current := shown], current);
            DeskSound(d) && d.terms[t] == kept[t]
            && Desk(kept[t := term][current := shown], current) == Update(d, t, term)
  {
    assert kept[t := term][current := shown] == kept[current := shown][t := term];
  }

  lemma OneOfThree(a: Terminal, b: Terminal, c: Terminal, t: nat, r: Terminal)
    requires t < TERMINALS
    ensures [a, b, c][t := r] == [if t == 0 then r else a, if t == 1 then r else b, if t == 2 then r else c]
  {
  }

  /** A screen whose cursor has moved on behind a character. */
  function Advanced(s: Screen, attr: byte): Screen
    requires Safe(s)
  {
    if s.x + 1 < COLS then s.(x := s.x + 1)
    else if s.y + 1 < ROWS then Screen(s.cells, 0, s.y + 1, Min(s.rowStack + 1, ROWS - 1))
    else Screen(ScrollUp(s.cells, attr), 0, ROWS - 1, Min(s.rowStack + 1, ROWS - 1))
  }

  class Console {
    const mem: array<Cell>
    const keyArr: array<byte>
    const keysOld: array<byte>
    const info: array<TerminalInfo>
    const refusal: seq<byte>    // the text printed when no process is free
    var screenX: int
    var screenY: int
    var rowStack: int
    var columnStack: int
    var keyArrPtr: byte
    var keyArrOverflow: byte
    var current: nat
    ghost var boot: Desk      // the desk at boot
    ghost var log: seq<Op>    // every operation since

    predicate Shaped() {
      && mem.Length == MEMORY
      && keyArr.Length == TERMINALS * KEYS
      && keysOld.Length == TERMINALS * KEYS
      && keyArr != keysOld
      && info.Length == TERMINALS
    }

    function Cells(base: nat): (r: seq<Cell>)
      requires Shaped() && base + CELLS <= MEMORY
      reads mem
      ensures |r| == CELLS
    {
      mem[base..base + CELLS]
    }

    /** The screen on display. */
    function Fg(): Screen
      requires Shaped()
      reads this`screenX, this`screenY, this`rowStack, mem
    {
      Screen(Cells(0), screenX, screenY, rowStack)
    }

    /** The screen of a terminal as saved. */
    function Bg(t: nat): Screen
      requires Shaped() && t < TERMINALS
      reads mem, info
    {
      Screen(Cells(Saved(t)), info[t].x, info[t].y, info[t].rowStack)
    }

    predicate BarShows(t: nat)
      requires Shaped() && t < TERMINALS
      reads mem
    {
      forall i :: CELLS <= i < BAR_END ==> mem[i] == BarCell(t, i - CELLS)
    }

    function OldKeys(t: nat): seq<byte>
      requires Shaped() && t < TERMINALS && info[t].keyPtr <= KEY_LIMIT
      reads info, keysOld
    {
      keysOld[KEYS * t..KEYS * t + info[t].keyPtr]
    }

    predicate StoredSound(t: nat)
      requires Shaped() && t < TERMINALS
      reads mem, info
    {
      Safe(Bg(t)) && info[t].column < COLS && info[t].keyPtr <= KEY_LIMIT
    }

    function Stored(t: nat): (r: Terminal)
      requires Shaped() && t < TERMINALS && StoredSound(t)
      reads mem, info, keysOld
      ensures Sound(r)
    {
      Terminal(Bg(t), info[t].column, OldKeys(t), info[t].keyOverflow)
    }

    predicate ShownSound()
      requires Shaped()
      reads this`screenX, this`screenY, this`rowStack, this`columnStack, this`keyArrPtr, mem
    {
      Safe(Fg()) && 0 <= columnStack < COLS && keyArrPtr <= KEY_LIMIT
    }

    function Displayed(): (r: Terminal)
      requires Shaped() && ShownSound()
      reads this`screenX, this`screenY, this`rowStack, this`columnStack, this`keyArrPtr, this`keyArrOverflow,
            mem, keyArr
      ensures Sound(r)
    {
      Terminal(Fg(), columnStack, keyArr[..keyArrPtr], keyArrOverflow)
    }

    predicate AllStored()
      requires Shaped()
      reads mem, info
    {
      forall t :: 0 <= t < TERMINALS ==> StoredSound(t)
    }

    /** The terminals as saved. */
    function Kept(): (r: seq<Terminal>)
      requires Shaped() && AllStored()
      reads mem, info, keysOld
      ensures |r| == TERMINALS && forall t :: 0 <= t < TERMINALS ==> Sound(r[t])
    {
      [Stored(0), Stored(1), Stored(2)]
    }

    ghost predicate Valid()
      reads this`screenX, this`screenY, this`rowStack, this`columnStack, this`keyArrPtr, this`keyArrOverflow,
            this`current, mem, keyArr, keysOld, info
    {
      Shaped() && current < TERMINALS && ShownSound() && BarShows(current) && AllStored()
    }

    /** The three terminals as their users see them. */
    function TheDesk(): (d: Desk)
      requires Valid()
      reads this`screenX, this`screenY, this`rowStack, this`columnStack, this`keyArrPtr, this`keyArrOverflow,
            this`current, mem, keyArr, keysOld, info
      ensures DeskSound(d)
    {
      Desk(Kept()[current := Displayed()], current)
    }

    /** `init_terminal`: three blank terminals, the first on display.  The cursor
        stays where the boot messages left it. */
    constructor (x: int, y: int, rows: int, column: int, refusal: seq<byte>)
      requires 0 <= x < COLS && 0 <= y < ROWS && 0 <= rows <= y && 0 <= column < COLS
      ensures Faithful() && boot == Booted(x, y, rows, column) && log == []
      ensures fresh(mem) && fresh(keyArr) && fresh(keysOld) && fresh(info)
    {
      this.refusal := refusal;
      mem := new Cell[MEMORY];
      keyArr := new byte[TERMINALS * KEYS];
      keysOld := new byte[TERMINALS * KEYS];
      info := new TerminalInfo[TERMINALS];
      screenX, screenY, rowStack, columnStack := x, y, rows, column;
      keyArrPtr, keyArrOverflow := 0, 0;
      current := 0;
      new;
      StartTerminals();
      BeginLog();
    }

    lemma NothingYet()
      requires Valid() && TheDesk() == boot && log == []
      ensures Faithful()
    {
      ReachNone(boot);
    }

    method StartTerminals()
      requires Shaped() && current == 0 && keyArrPtr == 0 && keyArrOverflow == 0
      requires 0 <= screenX < COLS && 0 <= screenY < ROWS && 0 <= rowStack <= screenY && 0 <= columnStack < COLS
      modifies mem, info, keyArr, keysOld, this`current
      ensures Valid() && TheDesk() == Booted(screenX, screenY, rowStack, columnStack)
    {
      Clear();
      ZeroKeys();
      InitTerminals();
      JustBooted();
    }

    /** The history starts here. */
    ghost method BeginLog()
      requires Valid()
      modifies this`boot, this`log
      ensures Faithful() && boot == old(TheDesk()) && log == []
    {
      boot, log := TheDesk(), [];
      NothingYet();
    }

    lemma JustBooted()
      requires Shaped() && current == 0 && ShownSound() && BarShows(0)
      requires keyArrPtr == 0 && keyArrOverflow == 0 && Cells(0) == BlankScreen(Attrib(0)).cells
      requires forall t :: 0 <= t < TERMINALS ==> BlankAt(t)
      ensures Valid() && TheDesk() == Booted(screenX, screenY, rowStack, columnStack)
    {
      forall t | 0 <= t < TERMINALS
        ensures StoredSound(t) && Stored(t) == BlankTerminal(t)
      {
        assert BlankAt(t);
      }
    }

    method InitTerminals()
      requires Shaped()
      modifies mem, info, keysOld, this`current
      ensures current == 0 && BarShows(0) && Cells(0) == BlankScreen(Attrib(0)).cells
      ensures forall t :: 0 <= t < TERMINALS ==> BlankAt(t)
    {
      var i := 0;
      while i < TERMINALS
        invariant 0 <= i <= TERMINALS
        invariant forall t :: 0 <= t < i ==> BlankAt(t)
      {
        InitTerminal(i);
        i := i + 1;
      }
      label done:
      current := 0;
      Clear();
      CopyCells(Saved(0), 0, CELLS);
      forall t | 0 <= t < TERMINALS
        ensures BlankAt(t)
      {
        assert old@done(BlankAt(t));
        if t != 0 {
          assert Cells(Saved(t)) == old@done(Cells(Saved(t)));
        }
      }
    }

    predicate BlankAt(t: nat)
      requires Shaped() && t < TERMINALS
      reads mem, info
    {
      info[t] == TerminalInfo(0, 0, 0, 0, 0, 0) && Cells(Saved(t)) == BlankScreen(Attrib(t)).cells
    }

    method ZeroKeys()
      requires Shaped()
      modifies keyArr
    {
      var i := 0;
      while i < TERMINALS * KEYS {
        keyArr[i] := 0;
        i := i + 1;
      }
    }

    method InitTerminal(t: nat)
      requires Shaped() && t < TERMINALS
      modifies mem, info, keysOld, this`current
      ensures BlankAt(t)
      ensures forall u :: 0 <= u < TERMINALS && u != t && old(BlankAt(u)) ==> BlankAt(u)
    {
      info[t] := TerminalInfo(0, 0, 0, 0, 0, 0);
      keysOld[KEYS * t] := 0;
      current := t;
      Clear();
      CopyCells(Saved(t), 0, CELLS);
      forall u | 0 <= u < TERMINALS && u != t && old(BlankAt(u))
        ensures BlankAt(u)
      {
        assert Cells(Saved(u)) == old(Cells(Saved(u)));
      }
    }

    /** The console is what its history makes of the desk it booted with. */
    ghost predicate Faithful()
      reads this, mem, keyArr, keysOld, info
    {
      Valid() && Reached(boot, log, TheDesk())
    }

    /** In every reachable state each terminal is as if it had been alone. */
    lemma EveryTerminalIsIsolated(t: nat)
      requires Faithful() && t < TERMINALS
      ensures TheDesk().terms[t] == AloneAll(boot.terms[t], Attrib(t), Project(t, boot.current, log))
    {
      TerminalsAreIsolated(boot, log, t);
    }

    ghost method Record(op: Op, was: Desk)
      requires Valid() && Reached(boot, log, was) && TheDesk() == Step(was, op)
      requires op.OpBackspace? ==> !BeforePrompt(was.terms[was.current])
      modifies this`log
      ensures log == old(log) + [op]
      ensures Faithful() && TheDesk() == old(TheDesk())
    {
      ReachOne(boot, log, was, op, TheDesk());
      log := log + [op];
    }

    // ---------------------------------------------------------- memory primitives

    /** `memcpy` of whole cells, front to back. */
    method CopyCells(dst: nat, src: nat, n: nat)
      requires Shaped() && dst + n <= MEMORY && src + n <= MEMORY
      requires dst <= src || src + n <= dst
      modifies mem
      ensures forall i {:trigger mem[i]} :: dst <= i < dst + n ==> mem[i] == old(mem[i - dst + src])
      ensures forall i {:trigger mem[i]} :: 0 <= i < MEMORY && !(dst <= i < dst + n) ==> mem[i] == old(mem[i])
    {
      var k := 0;
      ghost var was := mem[..];
      while k < n
        invariant 0 <= k <= n
        invariant forall i {:trigger mem[i]} :: dst <= i < dst + k ==> mem[i] == was[i - dst + src]
        invariant forall i {:trigger mem[i]} :: 0 <= i < MEMORY && !(dst <= i < dst + k) ==> mem[i] == was[i]
      {
        mem[dst + k] := mem[src + k];
        k := k + 1;
      }
    }

    method BlankCells(base: nat, n: nat, attr: byte)
      requires Shaped() && base + n <= MEMORY
      modifies mem
      ensures forall i :: base <= i < base + n ==> mem[i] == Blank(attr)
      ensures forall i :: 0 <= i < MEMORY && !(base <= i < base + n) ==> mem[i] == old(mem[i])
    {
      var i := 0;
      while i < n
        invariant 0 <= i <= n
        invariant forall j :: base <= j < base + i ==> mem[j] == Blank(attr)
        invariant forall j :: 0 <= j < MEMORY && !(base <= j < base + i) ==> mem[j] == old(mem[j])
      {
        mem[base + i] := Blank(attr);
        i := i + 1;
      }
    }

    /** Shift a page up by one row, copying `rows` rows: 23 after a wrap, 24 (the
        25th row comes along and is blanked at once) after a newline. */
    method ScrollPage(base: nat, rows: nat, attr: byte)
      requires Shaped() && base + BAR_END <= MEMORY
      requires rows == ROWS - 1 || rows == ROWS
      modifies mem
      ensures Cells(base) == ScrollUp(old(Cells(base)), attr)
      ensures forall i :: 0 <= i < MEMORY && !(base <= i < base + CELLS) ==> mem[i] == old(mem[i])
    {
      ghost var scrolled := ScrollUp(Cells(base), attr);
      CopyCells(base, base + COLS, rows * COLS);
      BlankCells(base + (ROWS - 1) * COLS, COLS, attr);
      forall k | base <= k < base + CELLS
        ensures mem[k] == scrolled[k - base]
      {
      }
    }

    // ------------------------------------------------------ the foreground engine

    method SetCursorPosition(x: int, y: int)
      modifies this`screenX, this`screenY, this`rowStack
      ensures screenX == x && screenY == Min(y, ROWS) && rowStack == 0
    {
      screenX := x;
      screenY := if y >= ROWS then ROWS else y;
      rowStack := 0;
    }

    method EnterHandler()
      requires Shaped() && Safe(Fg()) && current < TERMINALS
      modifies mem, this`screenX, this`screenY, this`rowStack
      ensures Fg() == NewLine(old(Fg()), Attrib(current))
      ensures forall i :: CELLS <= i < MEMORY ==> mem[i] == old(mem[i])
    {
      var adjust := screenX == 0 && rowStack != 0;
      if screenY >= ROWS - 1 {
        ScrollPage(0, ROWS, Attrib(current));
        screenY := ROWS - 1;
        screenX := 0;
      } else {
        SetCursorPosition(0, screenY + 1);
      }
      if adjust {
        screenY := screenY - 1;
      }
      rowStack := 0;
    }

    method Putc(c: byte)
      requires Shaped() && Safe(Fg()) && current < TERMINALS
      modifies mem, this`screenX, this`screenY, this`rowStack
      ensures Fg() == PutByte(old(Fg()), c, Attrib(current))
      ensures forall i :: CELLS <= i < MEMORY ==> mem[i] == old(mem[i])
    {
      if c == LF || c == CR {
        EnterHandler();
      } else {
        mem[COLS * screenY + screenX] := Cell(c, Attrib(current));
        assert Cells(0) == old(Cells(0))[COLS * screenY + screenX := Cell(c, Attrib(current))];
        screenX := screenX + 1;
        if screenX >= COLS {
          rowStack := rowStack + 1;
          if rowStack > ROWS - 1 {
            rowStack := ROWS - 1;
          }
          screenX := screenX % COLS;
          if screenY < ROWS - 1 {
            screenY := screenY + 1;
          } else {
            ScrollPage(0, ROWS - 1, Attrib(current));
            screenY := ROWS - 1;
            screenX := 0;
          }
        }
        screenY := (screenY + screenX / COLS) % ROWS;
      }
    }

    // ------------------------------------------------------ the background engine

    method EnterHandlerTerminal(t: nat)
      requires Shaped() && t < TERMINALS && Safe(Bg(t))
      modifies mem, info
      ensures Bg(t) == NewLine(old(Bg(t)), Attrib(t))
      ensures info[t] == old(info[t]).(x := info[t].x, y := info[t].y, rowStack := info[t].rowStack)
      ensures forall u :: 0 <= u < TERMINALS && u != t ==> info[u] == old(info[u])
      ensures forall i :: 0 <= i < MEMORY && !(Saved(t) <= i < Saved(t) + CELLS) ==> mem[i] == old(mem[i])
    {
      var adjust := info[t].x == 0 && info[t].rowStack != 0;
      if info[t].y >= ROWS - 1 {
        ScrollPage(Saved(t), ROWS, Attrib(t));
        info[t] := info[t].(y := ROWS - 1, x := 0);
      } else {
        info[t] := info[t].(x := 0);
        info[t] := info[t].(y := Min(info[t].y + 1, ROWS));
        info[t] := info[t].(rowStack := 0);
      }
      if adjust {
        info[t] := info[t].(y := info[t].y - 1);
      }
      info[t] := info[t].(rowStack := 0);
    }

    method PutcTerminal(c: byte, t: nat)
      requires Shaped() && t < TERMINALS && Safe(Bg(t))
      modifies mem, info
      ensures Bg(t) == PutByte(old(Bg(t)), c, Attrib(t))
      ensures info[t] == old(info[t]).(x := info[t].x, y := info[t].y, rowStack := info[t].rowStack)
      ensures forall u :: 0 <= u < TERMINALS && u != t ==> info[u] == old(info[u])
      ensures forall i :: 0 <= i < MEMORY && !(Saved(t) <= i < Saved(t) + CELLS) ==> mem[i] == old(mem[i])
    {
      if c == LF || c == CR {
        EnterHandlerTerminal(t);
      } else {
        var p := COLS * info[t].y + info[t].x;
        mem[Saved(t) + p] := Cell(c, Attrib(t));
        assert Cells(Saved(t)) == old(Cells(Saved(t)))[p := Cell(c, Attrib(t))];
        Advance(t);
      }
    }

    /** The cursor of a saved terminal moves on, to the next row or a fresh one. */
    method Advance(t: nat)
      requires Shaped() && t < TERMINALS && Safe(Bg(t))
      modifies mem, info
      ensures Bg(t) == Advanced(old(Bg(t)), Attrib(t))
      ensures info[t] == old(info[t]).(x := info[t].x, y := info[t].y, rowStack := info[t].rowStack)
      ensures forall u :: 0 <= u < TERMINALS && u != t ==> info[u] == old(info[u])
      ensures forall i :: 0 <= i < MEMORY && !(Saved(t) <= i < Saved(t) + CELLS) ==> mem[i] == old(mem[i])
    {
      info[t] := info[t].(x := info[t].x + 1);
      if info[t].x >= COLS {
        info[t] := info[t].(rowStack := info[t].rowStack + 1);
        if info[t].rowStack > ROWS - 1 {
          info[t] := info[t].(rowStack := ROWS - 1);
        }
        info[t] := info[t].(x := info[t].x % COLS);
        if info[t].y < ROWS - 1 {
          info[t] := info[t].(y := info[t].y + 1);
        } else {
          ScrollPage(Saved(t), ROWS - 1, Attrib(t));
          info[t] := info[t].(y := ROWS - 1);
          info[t] := info[t].(x := 0);
        }
      }
      info[t] := info[t].(y := (info[t].y + info[t].x / COLS) % ROWS);
    }

    // ------------------------------------------------------------ the key buffer

    /** The cursor is left of the prompt column on its first row. */
    predicate Astray()
      requires Shaped() && ShownSound()
      reads this`screenX, this`screenY, this`rowStack, this`columnStack, this`keyArrPtr, this`keyArrOverflow,
            mem, keyArr
    {
      BeforePrompt(Displayed())
    }

    /** On the top row an astray cursor would make the code write in front of the page.
        Below it, the last cell of the row above is blanked and the cursor leaves the
        screen. */
    method BackspaceHandler()
      requires Shaped() && current < TERMINALS && ShownSound() && (Astray() ==> screenY > 0)
      modifies mem, this`screenX, this`screenY, this`rowStack, this`keyArrPtr, this`keyArrOverflow
      ensures screenX == old(ErasedColumn(Displayed()))
      ensures !old(Astray()) ==> ShownSound() && Displayed() == Erase(old(Displayed()), Attrib(current))
      ensures old(Astray()) ==>
        && screenX == -1 && screenY == old(screenY) && rowStack == 0
        && mem[..] == old(mem[..])[COLS * screenY - 1 := Blank(Attrib(current))]
        && keyArrPtr == |Pop(old(Displayed())).keys| && keyArrOverflow == Pop(old(Displayed())).overflow
      ensures forall i :: CELLS <= i < MEMORY ==> mem[i] == old(mem[i])
    {
      if screenX == columnStack && rowStack == 0 {
        return;
      } else if screenX == 0 && rowStack != 0 {
        screenX := COLS - 1;
        screenY := screenY - 1;
        mem[COLS * screenY + screenX] := Blank(Attrib(current));
        rowStack := rowStack - 1;
        KeyArrPop();
      } else {
        screenX := screenX - 1;
        mem[COLS * screenY + screenX] := Blank(Attrib(current));
        KeyArrPop();
      }
      if !old(Astray()) {
        ghost var r := Erase(old(Displayed()), Attrib(current));
        assert Cells(0) == r.screen.cells;
        assert keyArr[..keyArrPtr] == r.keys;
      }
    }

    method KeyArrPush(c: byte)
      requires Shaped() && ShownSound()
      modifies keyArr, this`keyArrPtr, this`keyArrOverflow
      ensures ShownSound() && Displayed() == Push(old(Displayed()), c)
    {
      if keyArrPtr < KEY_LIMIT {
        keyArr[keyArrPtr] := c;
        keyArrPtr := keyArrPtr + 1;
      } else {
        keyArrOverflow := (keyArrOverflow + 1) % 256;
      }
    }

    method KeyArrPop()
      requires Shaped() && keyArrPtr <= KEY_LIMIT
      modifies this`keyArrPtr, this`keyArrOverflow
      ensures keyArrPtr <= KEY_LIMIT
      ensures old(keyArrOverflow) != 0 ==>
                keyArrOverflow == old(keyArrOverflow) - 1 && keyArrPtr == old(keyArrPtr)
      ensures old(keyArrOverflow) == 0 ==>
                keyArrOverflow == 0 && keyArrPtr == if old(keyArrPtr) == 0 then 0 else old(keyArrPtr) - 1
    {
      if keyArrOverflow != 0 {
        keyArrOverflow := keyArrOverflow - 1;
      } else if keyArrPtr != 0 {
        keyArrPtr := keyArrPtr - 1;
      }
    }

    method KeyArrClear()
      requires Shaped()
      modifies keyArr, this`keyArrPtr, this`keyArrOverflow
      ensures keyArrPtr == 0 && keyArrOverflow == 0
    {
      keyArrPtr := 0;
      keyArrOverflow := 0;
      var i := 0;
      while i < KEYS
        invariant keyArrPtr == 0 && keyArrOverflow == 0
      {
        keyArr[i] := 0;
        i := i + 1;
      }
    }

    /** Nothing but the terminal on display has changed. */
    twostate lemma OnlyDisplayChanged()
      requires old(Valid()) && Shaped() && ShownSound()
      requires current == old(current)
      requires unchanged(info) && unchanged(keysOld) && BarShows(current)
      requires forall i :: BAR_END <= i < MEMORY ==> mem[i] == old(mem[i])
      ensures Valid()
      ensures TheDesk() == Update(old(TheDesk()), current, Displayed())
    {
      AllKept();
    }

    /** Saved records, keys and pages that are untouched stay as they are. */
    twostate lemma AllKept()
      requires Shaped() && old(AllStored()) && unchanged(info) && unchanged(keysOld)
      requires forall i :: BAR_END <= i < MEMORY ==> mem[i] == old(mem[i])
      ensures AllStored() && Kept() == old(Kept())
    {
      forall t | 0 <= t < TERMINALS
        ensures StoredSound(t) && Stored(t) == old(Stored(t))
      {
        assert old(StoredSound(t));
        assert Cells(Saved(t)) == old(Cells(Saved(t)));
      }
    }

    // -------------------------------------------------------------------- output

    method WriteDisplayed(bytes: seq<byte>)
      requires Valid()
      modifies mem, this`screenX, this`screenY, this`rowStack, this`columnStack
      ensures Valid() && TheDesk() == Write(old(TheDesk()), current, bytes)
    {
      var i := 0;
      while i < |bytes|
        invariant 0 <= i <= |bytes|
        invariant Shaped() && Fg() == PutBytes(old(Fg()), bytes[..i], Attrib(current))
        invariant columnStack == if i == 0 then old(columnStack) else screenX
        invariant forall k :: CELLS <= k < MEMORY ==> mem[k] == old(mem[k])
      {
        Putc(bytes[i]);
        columnStack := screenX;
        i := i + 1;
        assert bytes[..i][..i - 1] == bytes[..i - 1];
      }
      assert bytes[..i] == bytes;
      OnlyDisplayChanged();
    }

    method WriteStored(t: nat, bytes: seq<byte>)
      requires Valid() && t < TERMINALS && t != current
      modifies mem, info
      ensures Valid() && TheDesk() == Write(old(TheDesk()), t, bytes)
    {
      StoreIsUpdate(Kept(), Displayed(), current, t, WriteText(Kept()[t], bytes, Attrib(t)));
      StoreText(t, bytes);
      assert Cells(0) == old(Cells(0));
    }

    method StoreText(t: nat, bytes: seq<byte>)
      requires Shaped() && AllStored() && t < TERMINALS
      modifies mem, info
      ensures AllStored() && Kept() == old(Kept())[t := WriteText(old(Kept())[t], bytes, Attrib(t))]
      ensures forall k :: 0 <= k < MEMORY && !(Saved(t) <= k < Saved(t) + CELLS) ==> mem[k] == old(mem[k])
    {
      assert StoredSound(t) && Kept()[t] == Stored(t);
      PutAllStored(t, bytes);
      info[t] := info[t].(column := info[t].x);
      OnlyStoredChanged(t);
    }

    method PutAllStored(t: nat, bytes: seq<byte>)
      requires Shaped() && t < TERMINALS && Safe(Bg(t))
      modifies mem, info
      ensures Bg(t) == PutBytes(old(Bg(t)), bytes, Attrib(t))
      ensures info[t] == old(info[t]).(x := info[t].x, y := info[t].y, rowStack := info[t].rowStack)
      ensures forall u :: 0 <= u < TERMINALS && u != t ==> info[u] == old(info[u])
      ensures forall k :: 0 <= k < MEMORY && !(Saved(t) <= k < Saved(t) + CELLS) ==> mem[k] == old(mem[k])
    {
      var i := 0;
      while i < |bytes|
        invariant 0 <= i <= |bytes|
        invariant Shaped() && Bg(t) == PutBytes(old(Bg(t)), bytes[..i], Attrib(t))
        invariant info[t] == old(info[t]).(x := info[t].x, y := info[t].y, rowStack := info[t].rowStack)
        invariant forall u :: 0 <= u < TERMINALS && u != t ==> info[u] == old(info[u])
        invariant forall k :: 0 <= k < MEMORY && !(Saved(t) <= k < Saved(t) + CELLS) ==> mem[k] == old(mem[k])
      {
        PutcTerminal(bytes[i], t);
        i := i + 1;
        assert bytes[..i][..i - 1] == bytes[..i - 1];
      }
      assert bytes[..i] == bytes;
    }

    method TerminalWrite(tid: nat, bytes: seq<byte>) returns (r: int)
      requires Faithful()
      modifies mem, info, this`screenX, this`screenY, this`rowStack, this`columnStack, this`log
      ensures Faithful() && log == old(log) + [OpWrite(tid, bytes)]
      ensures TheDesk() == Write(old(TheDesk()), tid, bytes)
      ensures r == if tid < TERMINALS then |bytes| else -1
    {
      if tid == current {
        WriteDisplayed(bytes);
      } else {
        if tid >= TERMINALS {
          Record(OpWrite(tid, bytes), old(TheDesk()));
          return -1;
        }
        WriteStored(tid, bytes);
      }
      Record(OpWrite(tid, bytes), old(TheDesk()));
      return |bytes|;
    }

    /** Nothing but one saved terminal has changed. */
    twostate lemma OnlyStoredChanged(t: nat)
      requires Shaped() && old(AllStored()) && t < TERMINALS && StoredSound(t)
      requires forall u :: 0 <= u < TERMINALS && u != t ==> info[u] == old(info[u])
      requires forall i :: 0 <= i < TERMINALS * KEYS && !(KEYS * t <= i < KEYS * t + KEYS) ==>
                 keysOld[i] == old(keysOld[i])
      requires forall k :: 0 <= k < MEMORY && !(Saved(t) <= k < Saved(t) + CELLS) ==> mem[k] == old(mem[k])
      ensures AllStored() && Kept() == old(Kept())[t := Stored(t)]
    {
      forall u | 0 <= u < TERMINALS && u != t
        ensures StoredSound(u) && Stored(u) == old(Stored(u))
      {
        assert old(StoredSound(u));
        StoredKept(u);
      }
      OneOfThree(old(Stored(0)), old(Stored(1)), old(Stored(2)), t, Stored(t));
    }

    twostate lemma StoredKept(u: nat)
      requires Shaped() && u < TERMINALS && old(StoredSound(u))
      requires info[u] == old(info[u])
      requires forall i :: KEYS * u <= i < KEYS * u + KEYS ==> keysOld[i] == old(keysOld[i])
      requires forall k :: Saved(u) <= k < Saved(u) + CELLS ==> mem[k] == old(mem[k])
      ensures StoredSound(u) && Stored(u) == old(Stored(u))
    {
      assert Cells(Saved(u)) == old(Cells(Saved(u)));
      assert OldKeys(u) == old(OldKeys(u));
    }

    method CopyKeys(buf: array<byte>, nbytes: int) returns (r: nat)
      requires Shaped() && keyArrPtr <= KEY_LIMIT && buf != keyArr && buf != keysOld
      requires buf.Length > if nbytes < 0 then 0 else Min(keyArrPtr, nbytes)
      modifies buf
      ensures r == if nbytes < 0 then 0 else Min(keyArrPtr, nbytes)
      ensures buf[..r] == keyArr[..r] && buf[r] == 0
      ensures forall i :: r < i < buf.Length ==> buf[i] == old(buf[i])
    {
      var i := 0;
      while i < keyArrPtr && i < nbytes
        invariant 0 <= i <= if nbytes < 0 then 0 else Min(keyArrPtr, nbytes)
        invariant buf[..i] == keyArr[..i]
        invariant forall k :: i <= k < buf.Length ==> buf[k] == old(buf[k])
      {
        buf[i] := keyArr[i];
        i := i + 1;
      }
      buf[i] := 0;
      return i;
    }

    /** What a reading program gets, and the buffer emptied behind it. */
    method TakeLine(buf: array<byte>, nbytes: int) returns (r: nat)
      requires Faithful() && buf != keyArr && buf != keysOld
      requires buf.Length > if nbytes < 0 then 0 else Min(keyArrPtr, nbytes)
      modifies buf, keyArr, this`keyArrPtr, this`keyArrOverflow, this`log
      ensures Faithful() && log == old(log) + [OpTake]
      ensures TheDesk() == LineTaken(old(TheDesk()))
      ensures r == if nbytes < 0 then 0 else Min(old(keyArrPtr), nbytes)
      ensures buf[..r] == Delivered(old(Displayed()), nbytes) && buf[r] == 0
      ensures forall i :: r < i < buf.Length ==> buf[i] == old(buf[i])
    {
      r := CopyKeys(buf, nbytes);
      KeyArrClear();
      OnlyDisplayChanged();
      Record(OpTake, old(TheDesk()));
    }

    /** `terminal_read` by a process of the terminal on display, once Enter was pressed:
        the kernel first prints the number of the terminal. */
    method TerminalRead(buf: array<byte>, nbytes: int) returns (r: nat)
      requires Faithful() && buf != keyArr && buf != keysOld
      requires buf.Length > if nbytes < 0 then 0 else Min(keyArrPtr, nbytes)
      modifies buf, mem, keyArr,
               this`screenX, this`screenY, this`rowStack, this`keyArrPtr, this`keyArrOverflow, this`log
      ensures Faithful() && log == old(log) + [OpPrint(TidLine(current))] + [OpTake]
      ensures TheDesk() == LineTaken(KernelPrint(old(TheDesk()), TidLine(current)))
      ensures r == if nbytes < 0 then 0 else Min(old(keyArrPtr), nbytes)
      ensures buf[..r] == Delivered(old(Displayed()), nbytes) && buf[r] == 0
      ensures forall i :: r < i < buf.Length ==> buf[i] == old(buf[i])
    {
      Puts(TidLine(current));
      r := TakeLine(buf, nbytes);
    }

    method PutAll(text: seq<byte>)
      requires Shaped() && Safe(Fg()) && current < TERMINALS
      modifies mem, this`screenX, this`screenY, this`rowStack
      ensures Fg() == PutBytes(old(Fg()), text, Attrib(current))
      ensures forall i :: CELLS <= i < MEMORY ==> mem[i] == old(mem[i])
    {
      var i := 0;
      while i < |text|
        invariant 0 <= i <= |text|
        invariant Fg() == PutBytes(old(Fg()), text[..i], Attrib(current))
        invariant forall k :: CELLS <= k < MEMORY ==> mem[k] == old(mem[k])
      {
        Putc(text[i]);
        i := i + 1;
        assert text[..i][..i - 1] == text[..i - 1];
      }
      assert text[..i] == text;
    }

    /** `puts`, and `printf` of a text without conversions. */
    method Puts(text: seq<byte>)
      requires Faithful()
      modifies mem, this`screenX, this`screenY, this`rowStack, this`log
      ensures Faithful() && log == old(log) + [OpPrint(text)]
      ensures TheDesk() == KernelPrint(old(TheDesk()), text)
    {
      PutAll(text);
      OnlyDisplayChanged();
      Record(OpPrint(text), old(TheDesk()));
    }

    /** The bar row: `text` in the bar's colour, highlighted from column `high`. */
    method DrawBar(text: seq<byte>, high: nat)
      requires Shaped() && |text| == COLS && high + BAR_TEXT_LEN <= COLS
      modifies mem
      ensures forall k :: CELLS <= k < BAR_END ==>
                mem[k] == Cell(text[k - CELLS], if high <= k - CELLS < high + BAR_TEXT_LEN then ATTR_HIGH else ATTR_BAR)
      ensures forall k :: 0 <= k < MEMORY && !(CELLS <= k < BAR_END) ==> mem[k] == old(mem[k])
    {
      var i := CELLS;
      while i < BAR_END
        invariant CELLS <= i <= BAR_END
        invariant forall k :: CELLS <= k < i ==> mem[k] == Cell(text[k - CELLS], ATTR_BAR)
        invariant forall k :: 0 <= k < MEMORY && !(CELLS <= k < BAR_END) ==> mem[k] == old(mem[k])
      {
        mem[i] := Cell(text[i - CELLS], ATTR_BAR);
        i := i + 1;
      }
      var h := CELLS + high;
      i := h;
      while i < h + BAR_TEXT_LEN
        invariant h <= i <= h + BAR_TEXT_LEN
        invariant forall k :: CELLS <= k < BAR_END ==>
                    mem[k] == Cell(text[k - CELLS], if h <= k < i then ATTR_HIGH else ATTR_BAR)
        invariant forall k :: 0 <= k < MEMORY && !(CELLS <= k < BAR_END) ==> mem[k] == old(mem[k])
      {
        mem[i] := Cell(text[i - CELLS], ATTR_HIGH);
        i := i + 1;
      }
    }

    /** Blank the page in the terminal's colour and redraw the bar below it. */
    method Clear()
      requires Shaped() && current < TERMINALS
      modifies mem
      ensures forall i :: 0 <= i < CELLS ==> mem[i] == Blank(Attrib(current))
      ensures BarShows(current)
      ensures forall i :: BAR_END <= i < MEMORY ==> mem[i] == old(mem[i])
    {
      BlankCells(0, CELLS, Attrib(current));
      DrawBar(BarText(), High(current));
    }

    /** A blank page that begins with a prompt. */
    method Reprompt(prompt: seq<byte>)
      requires Valid()
      modifies mem, this`screenX, this`screenY, this`rowStack, this`columnStack
      ensures ShownSound() && BarShows(current)
      ensures Displayed()
              == WriteText(old(Displayed()).(screen := BlankScreen(Attrib(current))), prompt, Attrib(current))
      ensures forall i :: BAR_END <= i < MEMORY ==> mem[i] == old(mem[i])
    {
      Clear();
      SetCursorPosition(0, 0);
      assert Fg() == BlankScreen(Attrib(current));
      PutAll(prompt);
      columnStack := screenX;
    }

    /** Ctrl-L. */
    method ClearAndPrompt()
      requires Faithful()
      modifies mem, this`screenX, this`screenY, this`rowStack, this`columnStack, this`log
      ensures Faithful() && log == old(log) + [OpClear]
      ensures TheDesk() == Cleared(old(TheDesk()))
    {
      Reprompt(PROMPT);
      OnlyDisplayChanged();
      Record(OpClear, old(TheDesk()));
    }

    // ----------------------------------------------------------------- the keys

    method KeyCharacter(c: byte)
      requires Faithful()
      modifies mem, keyArr, this`screenX, this`screenY, this`rowStack, this`keyArrPtr, this`keyArrOverflow, this`log
      ensures Faithful() && log == old(log) + [OpKey(c)]
      ensures TheDesk() == KeyTyped(old(TheDesk()), c)
    {
      Putc(c);
      KeyArrPush(c);
      OnlyDisplayChanged();
      Record(OpKey(c), old(TheDesk()));
    }

    method KeyEnter()
      requires Faithful()
      modifies mem, keyArr, this`screenX, this`screenY, this`rowStack, this`keyArrPtr, this`keyArrOverflow, this`log
      ensures Faithful() && log == old(log) + [OpEnter]
      ensures TheDesk() == Entered(old(TheDesk()))
    {
      KeyArrPush(LF);
      EnterHandler();
      OnlyDisplayChanged();
      Record(OpEnter, old(TheDesk()));
    }

    /** The cursor has left the screen and the cell in front of it is blank. */
    twostate predicate OffScreen()
      reads this, mem
    {
      && screenX == -1 && screenY == old(screenY) && log == old(log) && mem.Length == MEMORY
      && 0 < screenY < ROWS && current < TERMINALS
      && mem[..] == old(mem[..])[COLS * screenY - 1 := Blank(Attrib(current))]
    }

    method KeyBackspace()
      requires Faithful() && (Astray() ==> screenY > 0)
      modifies mem, this`screenX, this`screenY, this`rowStack, this`keyArrPtr, this`keyArrOverflow, this`log
      ensures Faithful() <==> !old(Astray())
      ensures if old(Astray()) then OffScreen()
              else log == old(log) + [OpBackspace] && Valid() && TheDesk() == Erased(old(TheDesk()))
    {
      BackspaceHandler();
      if !old(Astray()) {
        OnlyDisplayChanged();
        Record(OpBackspace, old(TheDesk()));
      }
    }

    // ----------------------------------------------------------------- switching

    /** `strncpy` between the two key arrays. */
    method Strncpy(dest: array<byte>, d: nat, src: array<byte>, s: nat, n: nat)
      requires dest != src && d + n <= dest.Length && s + n < src.Length
      modifies dest
      ensures dest[d..d + n] == UpToNul(src[s..s + n])
      ensures forall i :: 0 <= i < dest.Length && !(d <= i < d + n) ==> dest[i] == old(dest[i])
    {
      var i := 0;
      while src[s + i] != 0 && i < n
        invariant 0 <= i <= n
        invariant forall k :: s <= k < s + i ==> src[k] != 0
        invariant forall k :: d <= k < d + i ==> dest[k] == src[k - d + s]
        invariant forall k :: 0 <= k < dest.Length && !(d <= k < d + i) ==> dest[k] == old(dest[k])
        decreases n - i
      {
        dest[d + i] := src[s + i];
        i := i + 1;
      }
      ghost var m := i;
      while i < n
        invariant m <= i <= n
        invariant forall k :: d <= k < d + m ==> dest[k] == src[k - d + s]
        invariant forall k :: d + m <= k < d + i ==> dest[k] == 0
        invariant forall k :: 0 <= k < dest.Length && !(d <= k < d + i) ==> dest[k] == old(dest[k])
      {
        dest[d + i] := 0;
        i := i + 1;
      }
      ghost var text := src[s..s + n];
      forall k | 0 <= k < n
        ensures dest[d..d + n][k] == UpToNul(text)[k]
      {
        UpToNulAt(text, k);
        assert forall j :: 0 <= j < n ==> text[j] == src[s + j];
        assert m < n ==> text[m] == 0;
        assert dest[d..d + n][k] == dest[d + k];
      }
    }

    /** The live prefix of the key buffer, as the record of `t` will hold it. */
    method ParkKeys(t: nat)
      requires Shaped() && t < TERMINALS && keyArrPtr <= KEY_LIMIT
      modifies keysOld
      ensures keysOld[KEYS * t..KEYS * t + keyArrPtr] == UpToNul(keyArr[..keyArrPtr])
      ensures forall i :: 0 <= i < TERMINALS * KEYS && !(KEYS * t <= i < KEYS * t + KEYS) ==>
                keysOld[i] == old(keysOld[i])
    {
      Strncpy(keysOld, KEYS * t, keyArr, 0, KEY_COPY);
      UpToNulPrefix(keyArr[0..KEY_COPY], keyArrPtr);
      assert keyArr[0..KEY_COPY][..keyArrPtr] == keyArr[..keyArrPtr];
      assert keysOld[KEYS * t..KEYS * t + keyArrPtr] == keysOld[KEYS * t..KEYS * t + KEY_COPY][..keyArrPtr];
    }

    method FetchKeys(t: nat)
      requires Shaped() && t < TERMINALS && info[t].keyPtr <= KEY_LIMIT
      modifies keyArr
      ensures keyArr[..info[t].keyPtr] == UpToNul(OldKeys(t))
    {
      Strncpy(keyArr, 0, keysOld, KEYS * t, KEY_COPY);
      var p := info[t].keyPtr;
      UpToNulPrefix(keysOld[KEYS * t..KEYS * t + KEY_COPY], p);
      assert keysOld[KEYS * t..KEYS * t + KEY_COPY][..p] == OldKeys(t);
      assert keyArr[0..KEY_COPY][..p] == keyArr[..p];
    }

    method SaveTerminalInfo(t: nat)
      requires Valid() && t < TERMINALS
      modifies mem, info, keysOld
      ensures Shaped() && AllStored()
      ensures Kept() == old(Kept())[t := Parked(old(Displayed()))]
    {
      info[t] := TerminalInfo(screenX, screenY, keyArrPtr, keyArrOverflow, rowStack, columnStack);
      ParkKeys(t);
      CopyCells(Saved(t), 0, CELLS);
      assert Cells(Saved(t)) == old(Cells(0));
      OnlyStoredChanged(t);
    }

    method RestoreTerminalInfo(t: nat)
      requires Shaped() && t < TERMINALS && StoredSound(t)
      modifies mem, keyArr,
               this`screenX, this`screenY, this`rowStack, this`columnStack, this`keyArrPtr, this`keyArrOverflow
      ensures ShownSound() && Displayed() == Parked(old(Stored(t)))
      ensures forall i :: CELLS <= i < MEMORY ==> mem[i] == old(mem[i])
    {
      ghost var was := Stored(t);
      LoadRecord(t);
      CopyCells(0, Saved(t), CELLS);
      assert Cells(0) == was.screen.cells;
      assert Displayed() == Parked(was);
    }

    method LoadRecord(t: nat)
      requires Shaped() && t < TERMINALS && StoredSound(t)
      modifies keyArr, this`screenX, this`screenY, this`rowStack, this`columnStack, this`keyArrPtr, this`keyArrOverflow
      ensures screenX == info[t].x && screenY == info[t].y && rowStack == info[t].rowStack
      ensures columnStack == info[t].column && keyArrPtr == info[t].keyPtr && keyArrOverflow == info[t].keyOverflow
      ensures keyArr[..keyArrPtr] == UpToNul(old(OldKeys(t)))
    {
      SetCursorPosition(info[t].x, info[t].y);
      keyArrPtr := info[t].keyPtr;
      keyArrOverflow := info[t].keyOverflow;
      rowStack := info[t].rowStack;
      columnStack := info[t].column;
      FetchKeys(t);
    }

    /** A fresh page and bar for terminal `t`, then its saved state on top. */
    method ShowTerminal(t: nat)
      requires Shaped() && t < TERMINALS && AllStored()
      modifies mem, keyArr,
               this`screenX, this`screenY, this`rowStack, this`columnStack, this`keyArrPtr, this`keyArrOverflow,
               this`current
      ensures Valid() && current == t && Kept() == old(Kept())
      ensures Displayed() == Parked(old(Kept())[t])
    {
      current := t;
      ClearPage();
      ShowStored(t);
    }

    method ClearPage()
      requires Shaped() && current < TERMINALS && AllStored()
      modifies mem
      ensures AllStored() && Kept() == old(Kept()) && BarShows(current)
    {
      Clear();
      AllKept();
    }

    method ShowStored(t: nat)
      requires Shaped() && t < TERMINALS && AllStored()
      modifies mem, keyArr,
               this`screenX, this`screenY, this`rowStack, this`columnStack, this`keyArrPtr, this`keyArrOverflow
      ensures ShownSound() && AllStored() && Kept() == old(Kept())
      ensures Displayed() == Parked(old(Kept())[t])
      ensures forall i :: CELLS <= i < BAR_END ==> mem[i] == old(mem[i])
    {
      assert StoredSound(t) && Kept()[t] == Stored(t);
      RestoreTerminalInfo(t);
      AllKept();
    }

    method SwapTerminals(t: nat)
      requires Valid() && t < TERMINALS && t != current
      modifies mem, info, keyArr, keysOld,
               this`screenX, this`screenY, this`rowStack, this`columnStack, this`keyArrPtr, this`keyArrOverflow,
               this`current
      ensures Valid() && TheDesk() == Switch(old(TheDesk()), t)
    {
      ParkAndShowIsSwitch(Kept(), Displayed(), current, t);
      SaveTerminalInfo(current);
      ShowTerminal(t);
    }

    /** `canStart` is whether the terminal already runs or a process is free for
        its shell. */
    method SwitchToTerminal(t: nat, canStart: bool) returns (r: int)
      requires Faithful()
      modifies mem, info, keyArr, keysOld,
               this`screenX, this`screenY, this`rowStack, this`columnStack, this`keyArrPtr, this`keyArrOverflow,
               this`current, this`log
      ensures Faithful()
      ensures log == old(log) + [SwitchOp(old(current), t, canStart, refusal)]
      ensures TheDesk() == Step(old(TheDesk()), SwitchOp(old(current), t, canStart, refusal))
      ensures current == if t < TERMINALS && canStart then t else old(current)
      ensures r == if t >= TERMINALS || (t != old(current) && !canStart) then -1 else 0
    {
      if t >= TERMINALS {
        Record(OpSwitch(t), old(TheDesk()));
        return -1;
      }
      if t == current {
        Record(OpSwitch(t), old(TheDesk()));
        return 0;
      }
      if !canStart {
        Puts(refusal);
        return -1;
      }
      SwapTerminals(t);
      Record(OpSwitch(t), old(TheDesk()));
      return 0;
    }
  }
}
