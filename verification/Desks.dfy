/**
 Three virtual terminals, each with its own screen and its own pending line: what
 the one screen, the one key buffer and the saved buffers of the kernel pretend to
 be.  Console.dfy proves that the kernel's state is always such a desk.
 */
module Desks {
  import opened Common
  import opened Display
  import opened LineEditor

  /** Text colours of the three terminals. */
  function Attrib(t: nat): byte
    requires t < TERMINALS
  {
    if t == 0 then 0xCE else if t == 1 then 0x8A else 0x9A
  }

  /** Background and foreground: light yellow on light red, light green on dark grey,
      light green on light blue. */
  lemma Colours(t: nat)
    requires t < TERMINALS
    ensures Attrib(t) / 16 == [12, 8, 9][t] && Attrib(t) % 16 == [14, 10, 10][t]
  {
  }

  datatype Desk = Desk(terms: seq<Terminal>, current: nat)

  predicate DeskSound(d: Desk) {
    && |d.terms| == TERMINALS
    && d.current < TERMINALS
    && forall t :: 0 <= t < TERMINALS ==> Sound(d.terms[t])
  }

  function Update(d: Desk, t: nat, term: Terminal): (r: Desk)
    requires DeskSound(d) && t < TERMINALS && Sound(term)
    ensures DeskSound(r)
  {
    d.(terms := d.terms[t := term])
  }

  // ------------------------------------------------------------ C string copies

  function Zeros(n: nat): (r: seq<byte>)
    ensures |r| == n && forall i :: 0 <= i < n ==> r[i] == 0
  {
    seq(n, _ => 0)
  }

  /** What `strncpy` makes of a buffer: everything from the first NUL on is NUL. */
  function UpToNul(s: seq<byte>): (r: seq<byte>)
    ensures |r| == |s|
  {
    if s == [] then []
    else if s[0] == 0 then Zeros(|s|)
    else [s[0]] + UpToNul(s[1..])
  }

  /** After a NUL there is nothing but NULs. */
  predicate EndsAtNul(s: seq<byte>) {
    forall i, j :: 0 <= i < j < |s| && s[i] == 0 ==> s[j] == 0
  }

  lemma {:induction false} UpToNulAt(s: seq<byte>, i: nat)
    requires i < |s|
    ensures (forall j :: 0 <= j <= i ==> s[j] != 0) ==> UpToNul(s)[i] == s[i]
    ensures (exists j :: 0 <= j <= i && s[j] == 0) ==> UpToNul(s)[i] == 0
  {
    if s[0] != 0 && i > 0 {
      UpToNulAt(s[1..], i - 1);
      assert forall j :: 0 <= j <= i - 1 ==> s[1..][j] == s[j + 1];
      if exists j :: 0 <= j <= i && s[j] == 0 {
        var j :| 0 <= j <= i && s[j] == 0;
        assert s[1..][j - 1] == 0;
      }
    }
  }

  lemma UpToNulPrefix(s: seq<byte>, n: nat)
    requires n <= |s|
    ensures UpToNul(s)[..n] == UpToNul(s[..n])
  {
    forall i | 0 <= i < n
      ensures UpToNul(s)[i] == UpToNul(s[..n])[i]
    {
      UpToNulAt(s, i);
      UpToNulAt(s[..n], i);
      assert forall j :: 0 <= j <= i ==> s[..n][j] == s[j];
      if exists j :: 0 <= j <= i && s[j] == 0 {
        var j :| 0 <= j <= i && s[j] == 0;
        assert s[..n][j] == 0;
      }
    }
  }

  /** The key buffer survives being parked and fetched exactly when no character
      follows a NUL in it. */
  lemma ParkingKeepsKeysIff(s: seq<byte>)
    ensures UpToNul(s) == s <==> EndsAtNul(s)
    ensures EndsAtNul(UpToNul(s))
    ensures UpToNul(UpToNul(s)) == UpToNul(s)
  {
    ParkedEndsAtNul(s);
    ParkedEndsAtNul(UpToNul(s));
    KeptWhenEndsAtNul(UpToNul(s));
    if EndsAtNul(s) { KeptWhenEndsAtNul(s); }
  }

  lemma ParkedEndsAtNul(s: seq<byte>)
    ensures EndsAtNul(UpToNul(s))
  {
    var r := UpToNul(s);
    forall i, j | 0 <= i < j < |r| && r[i] == 0
      ensures r[j] == 0
    {
      UpToNulAt(s, i);
      UpToNulAt(s, j);
      var k :| 0 <= k <= i && s[k] == 0;
      assert 0 <= k <= j && s[k] == 0;
    }
  }

  lemma KeptWhenEndsAtNul(s: seq<byte>)
    requires EndsAtNul(s)
    ensures UpToNul(s) == s
  {
    forall i | 0 <= i < |s|
      ensures UpToNul(s)[i] == s[i]
    {
      UpToNulAt(s, i);
    }
  }

  // ------------------------------------------------------------------ operations

  /** `terminal_write` by a process of terminal `tid`.  On the terminal on display
      an empty write leaves the backspace column alone; in the background it does
      not.  A process of no terminal writes nothing. */
  function Write(d: Desk, tid: nat, bytes: seq<byte>): (r: Desk)
    requires DeskSound(d)
    ensures DeskSound(r) && r.current == d.current
  {
    if tid >= TERMINALS || (tid == d.current && bytes == []) then d
    else Update(d, tid, WriteText(d.terms[tid], bytes, Attrib(tid)))
  }

  /** Text the kernel itself prints goes to the terminal on display and leaves the
      backspace column alone. */
  function KernelPrint(d: Desk, bytes: seq<byte>): (r: Desk)
    requires DeskSound(d)
    ensures DeskSound(r)
  {
    var t := d.terms[d.current];
    Update(d, d.current, t.(screen := PutBytes(t.screen, bytes, Attrib(d.current))))
  }

  function KeyTyped(d: Desk, c: byte): (r: Desk)
    requires DeskSound(d)
    ensures DeskSound(r)
  {
    Update(d, d.current, TypeKey(d.terms[d.current], c, Attrib(d.current)))
  }

  function Entered(d: Desk): (r: Desk)
    requires DeskSound(d)
    ensures DeskSound(r)
  {
    Update(d, d.current, EnterKey(d.terms[d.current], Attrib(d.current)))
  }

  function Erased(d: Desk): (r: Desk)
    requires DeskSound(d) && !BeforePrompt(d.terms[d.current])
    ensures DeskSound(r)
  {
    Update(d, d.current, Erase(d.terms[d.current], Attrib(d.current)))
  }

  /** The reading program has taken the line. */
  function LineTaken(d: Desk): (r: Desk)
    requires DeskSound(d)
    ensures DeskSound(r)
  {
    Update(d, d.current, d.terms[d.current].(keys := [], overflow := 0))
  }

  function BlankScreen(attr: byte): (s: Screen)
    ensures Safe(s)
  {
    Screen(seq(CELLS, _ => Blank(attr)), 0, 0, 0)
  }

  function BlankTerminal(t: nat): (r: Terminal)
    requires t < TERMINALS
    ensures Sound(r)
  {
    Terminal(BlankScreen(Attrib(t)), 0, [], 0)
  }

  /** The desk after boot, the cursor being where the boot messages left it. */
  function Booted(x: int, y: int, rows: int, column: int): (d: Desk)
    requires 0 <= x < COLS && 0 <= y < ROWS && 0 <= rows <= y && 0 <= column < COLS
    ensures DeskSound(d)
  {
    Desk([Terminal(Screen(BlankScreen(Attrib(0)).cells, x, y, rows), column, [], 0),
          BlankTerminal(1), BlankTerminal(2)], 0)
  }

  /** Every terminal starts out blank in its own colours, with nothing typed. */
  lemma BootedTerminal(x: int, y: int, rows: int, column: int, t: nat, k: nat)
    requires 0 <= x < COLS && 0 <= y < ROWS && 0 <= rows <= y && 0 <= column < COLS
    requires t < TERMINALS && k < CELLS
    ensures var d := Booted(x, y, rows, column);
            && d.current == 0 && d.terms[t].screen.cells[k] == Blank(Attrib(t))
            && d.terms[t].keys == [] && d.terms[t].overflow == 0
            && (t == 0 ==> d.terms[0].screen.x == x && d.terms[0].screen.y == y && d.terms[0].column == column)
            && (t > 0 ==> AtPrompt(d.terms[t]) && d.terms[t].screen.x == 0 && d.terms[t].screen.y == 0)
  {
  }

  /** `391OS> ` */
  const PROMPT: seq<byte> := [51, 57, 49, 79, 83, 62, 32]

  /** Ctrl-L: a blank screen with a fresh prompt; the key buffer is not cleared. */
  function Reprompted(t: Terminal, attr: byte): (r: Terminal)
    requires Sound(t)
    ensures Sound(r)
  {
    WriteText(t.(screen := BlankScreen(attr)), PROMPT, attr)
  }

  function Cleared(d: Desk): (r: Desk)
    requires DeskSound(d)
    ensures DeskSound(r)
  {
    Update(d, d.current, Reprompted(d.terms[d.current], Attrib(d.current)))
  }

  function Parked(t: Terminal): (r: Terminal)
    requires Sound(t)
    ensures Sound(r)
  {
    t.(keys := UpToNul(t.keys))
  }

  /** Showing another terminal: its pending line and the one put aside go through
      string copies, nothing else changes. */
  function Switch(d: Desk, t: nat): (r: Desk)
    requires DeskSound(d)
    ensures DeskSound(r)
  {
    if t >= TERMINALS || t == d.current then d
    else Update(Update(d, d.current, Parked(d.terms[d.current])), t, Parked(d.terms[t])).(current := t)
  }

  /** No pending line holds a NUL followed by something else. */
  predicate KeysClean(d: Desk)
    requires DeskSound(d)
  {
    forall t :: 0 <= t < TERMINALS ==> EndsAtNul(d.terms[t].keys)
  }

  /** Switching is invisible: it changes which terminal is on display and nothing
      in any of the three, if and only if both pending lines survive the copies. */
  lemma SwitchIsInvisibleIff(d: Desk, t: nat)
    requires DeskSound(d) && t < TERMINALS && t != d.current
    ensures Switch(d, t) == Desk(d.terms, t)
            <==> EndsAtNul(d.terms[d.current].keys) && EndsAtNul(d.terms[t].keys)
    ensures KeysClean(d) ==> KeysClean(Switch(d, t))
  {
    var r := Switch(d, t);
    ParkingKeepsKeysIff(d.terms[d.current].keys);
    ParkingKeepsKeysIff(d.terms[t].keys);
    if r == Desk(d.terms, t) {
      assert r.terms[d.current] == d.terms[d.current];
      assert r.terms[t] == d.terms[t];
    }
    if EndsAtNul(d.terms[d.current].keys) && EndsAtNul(d.terms[t].keys) {
      assert r.terms == d.terms;
    }
  }

  /** Background output commutes with switching: a program of terminal `t` writing
      behind the scenes, then the switch, leaves the same desk as the switch and
      then the write on display - for every text but the empty one, which commutes
      exactly when the backspace column is already at the cursor. */
  lemma BackgroundWriteCommutesIff(d: Desk, t: nat, bytes: seq<byte>)
    requires DeskSound(d) && t < TERMINALS && t != d.current
    ensures Switch(Write(d, t, bytes), t) == Write(Switch(d, t), t, bytes)
            <==> (bytes != [] || d.terms[t].column == d.terms[t].screen.x)
  {
    var a, b := Switch(Write(d, t, bytes), t), Write(Switch(d, t), t, bytes);
    assert a.terms[d.current] == b.terms[d.current];
    assert forall u :: 0 <= u < TERMINALS && u != t ==> a.terms[u] == b.terms[u];
    if bytes != [] || d.terms[t].column == d.terms[t].screen.x {
      assert a.terms[t] == b.terms[t];
      assert a.terms == b.terms;
    } else {
      assert a.terms[t].column != b.terms[t].column;
    }
  }

  // ------------------------------------------------------------------ whole runs

  datatype Op =
    | OpWrite(tid: nat, bytes: seq<byte>)
    | OpPrint(text: seq<byte>)
    | OpKey(c: byte)
    | OpBackspace
    | OpEnter
    | OpTake
    | OpClear
    | OpSwitch(t: nat)

  function Step(d: Desk, op: Op): (r: Desk)
    requires DeskSound(d)
    ensures DeskSound(r)
  {
    match op
    case OpWrite(tid, bytes) => Write(d, tid, bytes)
    case OpPrint(text) => KernelPrint(d, text)
    case OpKey(c) => KeyTyped(d, c)
    case OpBackspace => if BeforePrompt(d.terms[d.current]) then d else Erased(d)
    case OpEnter => Entered(d)
    case OpTake => LineTaken(d)
    case OpClear => Cleared(d)
    case OpSwitch(t) => Switch(d, t)
  }

  function Run(d: Desk, ops: seq<Op>): (r: Desk)
    requires DeskSound(d)
    ensures DeskSound(r)
  {
    if ops == [] then d else Step(Run(d, ops[..|ops| - 1]), ops[|ops| - 1])
  }

  /** No backspace of the run meets the cursor before a prompt, where the code would
      leave the screen: see `BackspaceStaysOnScreenIff`. */
  predicate OnScreen(d: Desk, ops: seq<Op>)
    requires DeskSound(d)
  {
    ops == [] ||
    (var now := Run(d, ops[..|ops| - 1]);
     && OnScreen(d, ops[..|ops| - 1])
     && (ops[|ops| - 1].OpBackspace? ==> !BeforePrompt(now.terms[now.current])))
  }

  /** `d` is what a run of operations made of `boot`. */
  ghost predicate Reached(boot: Desk, ops: seq<Op>, d: Desk) {
    DeskSound(boot) && OnScreen(boot, ops) && d == Run(boot, ops)
  }

  lemma ReachNone(boot: Desk)
    requires DeskSound(boot)
    ensures Reached(boot, [], boot)
  {
  }

  lemma RunOneMore(d: Desk, ops: seq<Op>, op: Op)
    requires DeskSound(d)
    ensures Run(d, ops + [op]) == Step(Run(d, ops), op)
    ensures OnScreen(d, ops + [op])
            <==> OnScreen(d, ops) && (op.OpBackspace? ==> !BeforePrompt(Run(d, ops).terms[Run(d, ops).current]))
  {
    assert (ops + [op])[..|ops|] == ops;
  }

  lemma ReachOne(boot: Desk, ops: seq<Op>, d: Desk, op: Op, r: Desk)
    requires Reached(boot, ops, d) && r == Step(d, op)
    requires op.OpBackspace? ==> !BeforePrompt(d.terms[d.current])
    ensures Reached(boot, ops + [op], r)
  {
    RunOneMore(boot, ops, op);
  }

  /** Which terminal is on display after some steps: only switches matter. */
  function CurrentAfter(current: nat, ops: seq<Op>): nat {
    if ops == [] then current
    else
      var c := CurrentAfter(current, ops[..|ops| - 1]);
      match ops[|ops| - 1]
      case OpSwitch(t) => if t < TERMINALS then t else c
      case _ => c
  }

  /** The part of a run that concerns terminal `t`, as that terminal alone would
      live it: every write by its programs, the keys pressed while it shows, and the
      moments at which it is shown or put aside. */
  function Project(t: nat, current: nat, ops: seq<Op>): seq<Op> {
    if ops == [] then []
    else
      var init, last := ops[..|ops| - 1], ops[|ops| - 1];
      var before := Project(t, current, init);
      if Concerns(t, CurrentAfter(current, init), last) then before + [last] else before
  }

  /** Whether a step, taken while `current` is on display, concerns terminal `t`. */
  predicate Concerns(t: nat, current: nat, op: Op) {
    match op
    case OpWrite(tid, bytes) => tid == t && !(t == current && bytes == [])
    case OpSwitch(u) => u < TERMINALS && u != current && (t == u || t == current)
    case _ => current == t
  }

  /** One terminal on its own; being shown or put aside is a copy of its keys. */
  function Alone(term: Terminal, attr: byte, op: Op): (r: Terminal)
    requires Sound(term)
    ensures Sound(r)
  {
    match op
    case OpWrite(_, bytes) => WriteText(term, bytes, attr)
    case OpPrint(text) => term.(screen := PutBytes(term.screen, text, attr))
    case OpKey(c) => TypeKey(term, c, attr)
    case OpBackspace => if BeforePrompt(term) then term else Erase(term, attr)
    case OpEnter => EnterKey(term, attr)
    case OpTake => term.(keys := [], overflow := 0)
    case OpClear => Reprompted(term, attr)
    case OpSwitch(_) => Parked(term)
  }

  function AloneAll(term: Terminal, attr: byte, ops: seq<Op>): (r: Terminal)
    requires Sound(term)
    ensures Sound(r)
  {
    if ops == [] then term else Alone(AloneAll(term, attr, ops[..|ops| - 1]), attr, ops[|ops| - 1])
  }

  lemma {:induction false} CurrentOfRun(d: Desk, ops: seq<Op>)
    requires DeskSound(d)
    ensures Run(d, ops).current == CurrentAfter(d.current, ops)
  {
    if ops != [] {
      CurrentOfRun(d, ops[..|ops| - 1]);
    }
  }

  /** One step seen from terminal `t`. */
  lemma StepOnTerminal(d: Desk, op: Op, t: nat)
    requires DeskSound(d) && t < TERMINALS
    ensures Step(d, op).terms[t]
            == if Concerns(t, d.current, op) then Alone(d.terms[t], Attrib(t), op) else d.terms[t]
  {
  }

  /** Terminal isolation, for whole runs: however the three terminals share the
      screen and the key buffer, each ends exactly as if it had been alone with
      its own keys, its own programs' output and the copies of its own keys. */
  lemma {:induction false} TerminalsAreIsolated(d: Desk, ops: seq<Op>, t: nat)
    requires DeskSound(d) && OnScreen(d, ops) && t < TERMINALS
    ensures Run(d, ops).terms[t]
            == AloneAll(d.terms[t], Attrib(t), Project(t, d.current, ops))
  {
    if ops != [] {
      var init, last := ops[..|ops| - 1], ops[|ops| - 1];
      TerminalsAreIsolated(d, init, t);
      CurrentOfRun(d, init);
      StepOnTerminal(Run(d, init), last, t);
      var before := Project(t, d.current, init);
      assert (before + [last])[..|before|] == before;
      assert (before + [last])[|before|] == last;
    }
  }

  // --------------------------------------------------- what operations leave alone

  predicate IsOutput(op: Op) { op.OpWrite? || op.OpPrint? }

  /** Output and switches never touch what has been typed: over any run of them every
      pending line and its overflow count stay, if no character follows a NUL. */
  lemma {:induction false} OutputKeepsPendingLines(d: Desk, ops: seq<Op>, t: nat)
    requires DeskSound(d) && KeysClean(d) && t < TERMINALS
    requires forall i :: 0 <= i < |ops| ==> IsOutput(ops[i]) || ops[i].OpSwitch?
    ensures KeysClean(Run(d, ops))
    ensures Run(d, ops).terms[t].keys == d.terms[t].keys && Run(d, ops).terms[t].overflow == d.terms[t].overflow
  {
    if ops != [] {
      var now, last := Run(d, ops[..|ops| - 1]), ops[|ops| - 1];
      OutputKeepsPendingLines(d, ops[..|ops| - 1], t);
      if last.OpSwitch? {
        SwitchKeepsCleanLines(now, last.t);
      }
    }
  }

  lemma SwitchKeepsCleanLines(d: Desk, t: nat)
    requires DeskSound(d) && KeysClean(d)
    ensures Switch(d, t).terms == d.terms && KeysClean(Switch(d, t))
  {
    if t < TERMINALS && t != d.current {
      SwitchIsInvisibleIff(d, t);
    }
  }

  /** Only a program's own output and Ctrl-L move the column that backspace may reach:
      over any run without them it stays, whatever is typed, printed or shown. */
  lemma {:induction false} ColumnStays(d: Desk, ops: seq<Op>, t: nat)
    requires DeskSound(d) && t < TERMINALS
    requires forall i :: 0 <= i < |ops| ==> !ops[i].OpClear? && !(ops[i].OpWrite? && ops[i].tid == t)
    ensures Run(d, ops).terms[t].column == d.terms[t].column
  {
    if ops != [] {
      var now, last := Run(d, ops[..|ops| - 1]), ops[|ops| - 1];
      ColumnStays(d, ops[..|ops| - 1], t);
      StepOnTerminal(now, last, t);
      if Concerns(t, now.current, last) {
        AloneKeepsColumn(now.terms[t], Attrib(t), last);
      }
    }
  }

  lemma AloneKeepsColumn(term: Terminal, attr: byte, op: Op)
    requires Sound(term) && !op.OpClear? && !op.OpWrite?
    ensures Alone(term, attr, op).column == term.column
  {
  }

  /** A write puts it at the cursor. */
  lemma WriteMovesColumn(d: Desk, t: nat, bytes: seq<byte>)
    requires DeskSound(d) && t < TERMINALS && bytes != []
    ensures Write(d, t, bytes).terms[t].column == Write(d, t, bytes).terms[t].screen.x
  {
  }

  /** A read takes the line of the terminal on display and nothing else. */
  lemma TakeOnlyEmptiesTheLine(d: Desk, t: nat)
    requires DeskSound(d) && t < TERMINALS
    ensures var r, was := Step(d, OpTake).terms[t], d.terms[t];
            && r.screen == was.screen && r.column == was.column
            && (if t == d.current then r.keys == [] && r.overflow == 0
                else r.keys == was.keys && r.overflow == was.overflow)
  {
  }

  lemma PromptIsSpelled()
    ensures Spells(PROMPT, "391OS> ")
  {
  }

  /** Ctrl-L: the screen is blank but for the prompt in its first row, the cursor and the
      column backspace may reach are behind it; what was typed stays in the buffer. */
  lemma RepromptedScreen(t: Terminal, attr: byte, k: nat)
    requires Sound(t) && k < CELLS
    ensures var r := Reprompted(t, attr);
            && r.screen.cells[k] == (if k < 7 then Cell(PROMPT[k], attr) else Cell(32, attr))
            && r.screen.x == 7 && r.screen.y == 0 && r.screen.rowStack == 0 && r.column == 7
            && r.keys == t.keys && r.overflow == t.overflow
  {
    PrintedOnFirstRow(BlankScreen(attr), PROMPT, attr, k);
  }

  /** A text that fits the first row of a fresh screen. */
  lemma {:induction false} PrintedOnFirstRow(s: Screen, text: seq<byte>, attr: byte, k: nat)
    requires Safe(s) && s.x == 0 && s.y == 0 && s.rowStack == 0 && Printable(text) && |text| < COLS && k < CELLS
    ensures var r := PutBytes(s, text, attr);
            && r.x == |text| && r.y == 0 && r.rowStack == 0
            && r.cells[k] == if k < |text| then Cell(text[k], attr) else s.cells[k]
  {
    if text != [] {
      PrintedOnFirstRow(s, text[..|text| - 1], attr, k);
    }
  }

  /** A run without the moments of being shown or put aside. */
  function WithoutSwitches(ops: seq<Op>): seq<Op> {
    if ops == [] then []
    else
      var init, last := ops[..|ops| - 1], ops[|ops| - 1];
      if last.OpSwitch? then WithoutSwitches(init) else WithoutSwitches(init) + [last]
  }

  predicate NoNulIn(keys: seq<byte>) {
    forall i :: 0 <= i < |keys| ==> keys[i] != 0
  }

  /** No key types a NUL. */
  predicate NoNulKeys(ops: seq<Op>) {
    forall i :: 0 <= i < |ops| && ops[i].OpKey? ==> ops[i].c != 0
  }

  /** As long as no key types a NUL, a terminal does not notice being switched away
      from and back to. */
  lemma {:induction false} SwitchesGoUnnoticed(term: Terminal, attr: byte, ops: seq<Op>)
    requires Sound(term) && NoNulIn(term.keys) && NoNulKeys(ops)
    ensures AloneAll(term, attr, ops) == AloneAll(term, attr, WithoutSwitches(ops))
    ensures NoNulIn(AloneAll(term, attr, ops).keys)
  {
    if ops != [] {
      var init, last := ops[..|ops| - 1], ops[|ops| - 1];
      SwitchesGoUnnoticed(term, attr, init);
      UnnoticedStep(AloneAll(term, attr, init), attr, last);
      if !last.OpSwitch? {
        AloneOneMore(term, attr, WithoutSwitches(init), last);
      }
    }
  }

  lemma AloneOneMore(term: Terminal, attr: byte, ops: seq<Op>, op: Op)
    requires Sound(term)
    ensures AloneAll(term, attr, ops + [op]) == Alone(AloneAll(term, attr, ops), attr, op)
  {
    assert (ops + [op])[..|ops|] == ops;
  }

  lemma UnnoticedStep(term: Terminal, attr: byte, op: Op)
    requires Sound(term) && NoNulIn(term.keys) && (op.OpKey? ==> op.c != 0)
    ensures op.OpSwitch? ==> Alone(term, attr, op) == term
    ensures NoNulIn(Alone(term, attr, op).keys)
  {
    if op.OpSwitch? {
      KeptWhenEndsAtNul(term.keys);
    }
  }

  /** Away and back again, whatever happens in between: the terminal comes back as it
      was if and only if its pending line survives a string copy. */
  lemma AwayAndBackIff(d: Desk, u: nat, ops: seq<Op>)
    requires DeskSound(d) && u < TERMINALS && u != d.current
    requires OnScreen(Switch(d, u), ops)
    requires forall i :: 0 <= i < |ops| ==> !ops[i].OpSwitch?
    requires forall i :: 0 <= i < |ops| && ops[i].OpWrite? ==> ops[i].tid != d.current
    ensures var c := d.current;
            Switch(Run(Switch(d, u), ops), c).terms[c] == d.terms[c] <==> EndsAtNul(d.terms[c].keys)
  {
    var c := d.current;
    TerminalsAreIsolated(Switch(d, u), ops, c);
    NothingForTheOther(c, u, ops);
    CurrentOfRun(Switch(d, u), ops);
    ParkingKeepsKeysIff(d.terms[c].keys);
  }

  /** F1 and then `a` on an empty line, away and back: the NUL stays, the `a` is gone. */
  lemma NulCutsTheLine(d: Desk, u: nat)
    requires DeskSound(d) && u < TERMINALS && u != d.current && d.terms[d.current].keys == []
    ensures var c, typed := d.current, Run(d, [OpKey(0), OpKey(97)]);
            && typed.current == c && typed.terms[c].keys == [0, 97]
            && Switch(Switch(typed, u), c).terms[c].keys == [0, 0]
  {
    var typed := Run(d, [OpKey(0), OpKey(97)]);
    RunOneMore(d, [], OpKey(0));
    RunOneMore(d, [OpKey(0)], OpKey(97));
    assert [] + [OpKey(0)] == [OpKey(0)] && [OpKey(0)] + [OpKey(97)] == [OpKey(0), OpKey(97)];
    assert typed.terms[d.current].keys == [0, 97];
    UpToNulAt([0, 97], 0);
    UpToNulAt([0, 97], 1);
    assert UpToNul([0, 97]) == [0, 0];
    ParkingKeepsKeysIff([0, 97]);
  }

  lemma {:induction false} NothingForTheOther(c: nat, u: nat, ops: seq<Op>)
    requires u != c
    requires forall i :: 0 <= i < |ops| ==> !ops[i].OpSwitch?
    requires forall i :: 0 <= i < |ops| && ops[i].OpWrite? ==> ops[i].tid != c
    ensures CurrentAfter(u, ops) == u && Project(c, u, ops) == []
  {
    if ops != [] {
      NothingForTheOther(c, u, ops[..|ops| - 1]);
    }
  }
}
