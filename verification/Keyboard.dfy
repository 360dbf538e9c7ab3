/**
 Scan codes: the translation tables, the modifier keys and the dispatch of the
 keyboard interrupt onto console and processes.
 */
module Keyboards {
  import opened Common
  import opened Display
  import opened LineEditor
  import opened Desks
  import opened Consoles
  import opened Machines
  import Processes

  const L_SHIFT := 0x2A
  const R_SHIFT := 0x36
  const L_SHIFT_REL := 0xAA
  const R_SHIFT_REL := 0xB6
  const CAPS_LOCK := 0x3A
  const L_CTRL := 0x1D
  const L_CTRL_REL := 0x9D
  const ALT := 0x38
  const ALT_REL := 0xB8
  const ENTER := 0x1C
  const BACKSPACE := 0x0E
  const TAB := 0x0F
  const ESC := 0x01
  const NUM_STAR := 0x37
  const F1 := 0x3B
  const F2 := 0x3C
  const F3 := 0x3D
  const F4 := 0x3E
  const KEY_L := 0x26
  const KEY_C := 0x2E

  /** The scan code table without modifiers; codes without a key hold NUL. */
  function PlainKey(code: nat): char {
    match code
    case 2 => '1' case 3 => '2' case 4 => '3' case 5 => '4'
    case 6 => '5' case 7 => '6' case 8 => '7' case 9 => '8'
    case 10 => '9' case 11 => '0' case 12 => '-' case 13 => '='
    case 15 => '\t'
    case 16 => 'q' case 17 => 'w' case 18 => 'e' case 19 => 'r'
    case 20 => 't' case 21 => 'y' case 22 => 'u' case 23 => 'i'
    case 24 => 'o' case 25 => 'p' case 26 => '[' case 27 => ']'
    case 28 => '\n'
    case 30 => 'a' case 31 => 's' case 32 => 'd' case 33 => 'f'
    case 34 => 'g' case 35 => 'h' case 36 => 'j' case 37 => 'k'
    case 38 => 'l' case 39 => ';' case 40 => '\'' case 41 => '`'
    case 43 => '\\' case 44 => 'z' case 45 => 'x' case 46 => 'c'
    case 47 => 'v' case 48 => 'b' case 49 => 'n' case 50 => 'm'
    case 51 => ',' case 52 => '.' case 53 => '/'
    case 57 => ' '
    case _ => '\0'
  }

  /** The same with shift. */
  function ShiftKey(code: nat): char {
    match code
    case 2 => '!' case 3 => '@' case 4 => '#' case 5 => '$'
    case 6 => '%' case 7 => '^' case 8 => '&' case 9 => '*'
    case 10 => '(' case 11 => ')' case 12 => '_' case 13 => '+'
    case 15 => '\t'
    case 16 => 'Q' case 17 => 'W' case 18 => 'E' case 19 => 'R'
    case 20 => 'T' case 21 => 'Y' case 22 => 'U' case 23 => 'I'
    case 24 => 'O' case 25 => 'P' case 26 => '{' case 27 => '}'
    case 28 => '\n'
    case 30 => 'A' case 31 => 'S' case 32 => 'D' case 33 => 'F'
    case 34 => 'G' case 35 => 'H' case 36 => 'J' case 37 => 'K'
    case 38 => 'L' case 39 => ':' case 40 => '\"' case 41 => '~'
    case 43 => '|' case 44 => 'Z' case 45 => 'X' case 46 => 'C'
    case 47 => 'V' case 48 => 'B' case 49 => 'N' case 50 => 'M'
    case 51 => '<' case 52 => '>' case 53 => '?'
    case 57 => ' '
    case _ => '\0'
  }

  datatype Mods = Mods(shift: bool, caps: bool, ctrl: bool, alt: bool)

  predicate LetterKey(code: nat) { 16 <= code < 26 || 30 <= code < 39 || 44 <= code < 51 }

  /** Caps lock swaps the two tables for letters and leaves the other keys alone. */
  function CharOf(m: Mods, code: nat): (c: byte)
    ensures c != CR && (c == LF <==> code == ENTER)
  {
    (if m.shift != (m.caps && LetterKey(code)) then ShiftKey(code) else PlainKey(code)) as int
  }

  /** Letters are capitals when exactly one of shift and caps lock is on; every
      other key depends on shift alone. */
  lemma CaseOfKeys(m: Mods, code: nat)
    ensures LetterKey(code) <==> 'a' <= PlainKey(code) <= 'z'
    ensures LetterKey(code) ==>
              && 97 <= CharOf(Mods(false, false, m.ctrl, m.alt), code) <= 122
              && CharOf(m, code) == CharOf(Mods(false, false, m.ctrl, m.alt), code)
                                    - if m.shift != m.caps then 32 else 0
    ensures !LetterKey(code) ==> CharOf(m, code) == CharOf(m.(caps := !m.caps), code)
  {
  }

  /** The four rows of the keyboard, without and with shift. */
  lemma RowsAreSpelled(i: nat)
    requires i < 12
    ensures PlainKey(2 + i) == "1234567890-="[i] && ShiftKey(2 + i) == "!@#$%^&*()_+"[i]
    ensures PlainKey(16 + i) == "qwertyuiop[]"[i] && ShiftKey(16 + i) == "QWERTYUIOP{}"[i]
    ensures PlainKey(30 + i) == "asdfghjkl;'`"[i] && ShiftKey(30 + i) == "ASDFGHJKL:\"~"[i]
    ensures i < 10 ==> PlainKey(44 + i) == "zxcvbnm,./"[i] && ShiftKey(44 + i) == "ZXCVBNM<>?"[i]
  {
  }

  /** The other codes that stand for a character. */
  lemma OtherKeys(code: nat)
    requires !(2 <= code < 14 || 16 <= code < 28 || 30 <= code < 42 || 44 <= code < 54)
    ensures PlainKey(code) != '\0' <==> code in {15, 28, 43, 57}
    ensures ShiftKey(code) == (if code == 43 then '|' else PlainKey(code))
    ensures PlainKey(15) == '\t' && PlainKey(28) == '\n' && PlainKey(43) == '\\' && PlainKey(57) == ' '
  {
  }

  /** A NUL reaches the key buffer only through F1 without Alt. */
  lemma NulIsTypedOnlyByF1(m: Mods, code: nat)
    requires code > 0
    ensures ActionOf(m, code) == Type(0) <==> code == F1 && !m.alt
  {
  }

  datatype Action =
    | Ignore
    | Type(c: byte)
    | Rub
    | Submit
    | Reprompt
    | Interrupt
    | Show(t: nat)

  predicate SetsFlag(code: nat) {
    || code == L_SHIFT || code == R_SHIFT || code == L_SHIFT_REL || code == R_SHIFT_REL
    || code == CAPS_LOCK || code == L_CTRL || code == L_CTRL_REL || code == ALT || code == ALT_REL
  }

  predicate Silent(code: nat) { code == TAB || code == ESC || code == NUM_STAR }

  function ActionOf(m: Mods, code: nat): Action {
    if SetsFlag(code) || Silent(code) then Ignore
    else if code == ENTER then Submit
    else if code == BACKSPACE then Rub
    else if m.ctrl && code == KEY_L then Reprompt
    else if m.ctrl && code == KEY_C then Interrupt
    else if code >= F4 then Ignore
    else if m.alt && code == F1 then Show(0)
    else if m.alt && code == F2 then Show(1)
    else if m.alt && code == F3 then Show(2)
    else if code >= F2 then Ignore
    else Type(CharOf(m, code))
  }

  function ModsAfter(m: Mods, code: nat): Mods {
    if code == L_SHIFT || code == R_SHIFT then m.(shift := true)
    else if code == L_SHIFT_REL || code == R_SHIFT_REL then m.(shift := false)
    else if code == CAPS_LOCK then m.(caps := !m.caps)
    else if code == L_CTRL then m.(ctrl := true)
    else if code == L_CTRL_REL then m.(ctrl := false)
    else if code == ALT then m.(alt := true)
    else if code == ALT_REL then m.(alt := false)
    else m
  }

  /** Which codes do what: everything but typing has its one key, and a release code does
      nothing. */
  lemma ActionsOfCodes(m: Mods, code: nat, t: nat)
    ensures ActionOf(m, code) == Submit <==> code == 0x1C
    ensures ActionOf(m, code) == Rub <==> code == 0x0E
    ensures ActionOf(m, code) == Reprompt <==> m.ctrl && PlainKey(code) == 'l'
    ensures ActionOf(m, code) == Interrupt <==> m.ctrl && PlainKey(code) == 'c'
    ensures ActionOf(m, code) == Show(t) <==> m.alt && t < 3 && code == 0x3B + t
    ensures code >= 0x80 ==> ActionOf(m, code) == Ignore
    ensures 2 <= code <= 57 && code !in {0x0E, 0x0F, 0x1C, 0x1D, 0x2A, 0x36, 0x37, 0x38} && !m.ctrl ==>
              ActionOf(m, code) == Type(CharOf(m, code))
    ensures ActionOf(m, code).Type? ==> ActionOf(m, code).c == CharOf(m, code) && code <= F1 && !SetsFlag(code)
  {
  }

  /** The console operations of a key, if any.  `canStart`: the terminal to be
      shown runs already or can be started. */
  function OpsOf(current: nat, a: Action, canStart: bool, refusal: seq<byte>): seq<Op> {
    match a
    case Ignore => []
    case Interrupt => []
    case Type(c) => [OpKey(c)]
    case Rub => [OpBackspace]
    case Submit => [OpEnter]
    case Reprompt => [OpClear]
    case Show(t) => [SwitchOp(current, t, canStart, refusal)]
  }

  /** Each action is at most one operation of the terminals, and each operation but those of
      programs and the kernel belongs to one action. */
  lemma OneOperationEach(current: nat, a: Action, canStart: bool, refusal: seq<byte>, c: byte)
    ensures var ops := OpsOf(current, a, canStart, refusal);
            && |ops| <= 1 && (ops == [] <==> a.Ignore? || a.Interrupt?)
            && (ops == [OpKey(c)] <==> a == Type(c)) && (ops == [OpBackspace] <==> a == Rub)
            && (ops == [OpEnter] <==> a == Submit) && (ops == [OpClear] <==> a == Reprompt)
            && OpTake !in ops && (a.Show? && canStart ==> ops == [OpSwitch(a.t)])
  {
  }

  /** A machine after a key: the terminals have one operation more, or the processes
      have switched as well. */
  function Acted(v: View, a: Action, refusal: seq<byte>): View
    requires Processes.Shaped(v.state)
  {
    match a
    case Ignore => v
    case Interrupt => v
    case Type(c) => Told(v, OpKey(c))
    case Rub => Told(v, OpBackspace)
    case Submit => Told(v, OpEnter)
    case Reprompt => Told(v, OpClear)
    case Show(t) => Switched(v, t, refusal)
  }

  /** What a key adds to the history of the terminals, and what it does to the processes. */
  lemma ActedAddsOps(v: View, a: Action, refusal: seq<byte>)
    requires Processes.Shaped(v.state)
    ensures Acted(v, a, refusal).inOrder == v.inOrder
    ensures Acted(v, a, refusal).log == v.log + OpsOf(v.state.current, a, a.Show? ==> CanOpen(v.state, a.t), refusal)
    ensures Acted(v, a, refusal).state == if a.Show? then Processes.Switch(v.state, a.t) else v.state
  {
  }

  /** The scan codes case by case. */
  lemma KeyActs(v: View, m: Mods, code: nat, refusal: seq<byte>)
    requires Processes.Shaped(v.state) && !SetsFlag(code)
    ensures Acted(v, ActionOf(m, code), refusal)
            == if code == ENTER then Told(v, OpEnter)
               else if code == BACKSPACE then Told(v, OpBackspace)
               else if Silent(code) then v
               else if m.ctrl && code == KEY_L then Told(v, OpClear)
               else if m.ctrl && code == KEY_C then v
               else if code >= F4 then v
               else if m.alt && code == F1 then Switched(v, 0, refusal)
               else if m.alt && code == F2 then Switched(v, 1, refusal)
               else if m.alt && code == F3 then Switched(v, 2, refusal)
               else if code >= F2 then v
               else Told(v, OpKey(CharOf(m, code)))
  {
  }

  class Keyboard {
    const machine: Machine
    var shift: bool
    var caps: bool
    var ctrl: bool
    var alt: bool
    var enterState: bool

    constructor (machine: Machine)
      ensures this.machine == machine && TheMods() == Mods(false, false, false, false) && !enterState
    {
      this.machine := machine;
      shift, caps, ctrl, alt, enterState := false, false, false, false, false;
    }

    function TheMods(): Mods
      reads this
    {
      Mods(shift, caps, ctrl, alt)
    }

    /** Every scan code keeps the machine in order, but for backspace at an astray
        cursor. */
    method KeyboardHandler(code: nat, here: Processes.Context)
      requires machine.Valid() && machine.kernel.IsHere(here)
      requires code == BACKSPACE && machine.console.Astray() ==> machine.console.screenY > 0
      modifies this, machine.console, machine.console.mem, machine.console.keyArr, machine.console.keysOld,
               machine.console.info, machine.kernel, machine.kernel.process, machine.kernel.count,
               machine.kernel.processTerminal, machine.kernel.terminalRunning, machine.kernel.pcb,
               machine.kernel.tables, machine.kernel.tables.pageDirectory
      ensures TheMods() == ModsAfter(old(TheMods()), code)
      ensures enterState == (old(enterState) || code == ENTER)
      ensures machine.Seen()
              == if code == BACKSPACE && old(machine.console.Astray()) then old(machine.Seen()).(inOrder := false)
                 else Acted(old(machine.Seen()), ActionOf(old(TheMods()), code), machine.console.refusal)
      ensures code == BACKSPACE && old(machine.console.Astray()) ==> machine.console.OffScreen()
    {
      if SetsFlag(code) {
        SetFlag(code);
        return;
      }
      if code == ENTER {
        enterState := true;
      }
      Act(TheMods(), code, here);
    }

    method SetFlag(code: nat)
      requires SetsFlag(code)
      modifies this
      ensures TheMods() == ModsAfter(old(TheMods()), code) && enterState == old(enterState)
    {
      if code == L_SHIFT || code == R_SHIFT {
        shift := true;
      } else if code == L_SHIFT_REL || code == R_SHIFT_REL {
        shift := false;
      } else if code == CAPS_LOCK {
        caps := !caps;
      } else if code == L_CTRL {
        ctrl := true;
      } else if code == L_CTRL_REL {
        ctrl := false;
      } else if code == ALT {
        alt := true;
      } else {
        alt := false;
      }
    }

    /** What a key that is no modifier does. */
    method Act(m: Mods, code: nat, here: Processes.Context)
      requires machine.Valid() && machine.kernel.IsHere(here) && !SetsFlag(code)
      requires code == BACKSPACE && machine.console.Astray() ==> machine.console.screenY > 0
      modifies machine.console, machine.console.mem, machine.console.keyArr, machine.console.keysOld,
               machine.console.info, machine.kernel, machine.kernel.process, machine.kernel.count,
               machine.kernel.processTerminal, machine.kernel.terminalRunning, machine.kernel.pcb,
               machine.kernel.tables, machine.kernel.tables.pageDirectory
      ensures machine.Seen()
              == if code == BACKSPACE && old(machine.console.Astray()) then old(machine.Seen()).(inOrder := false)
                 else Acted(old(machine.Seen()), ActionOf(m, code), machine.console.refusal)
      ensures code == BACKSPACE && old(machine.console.Astray()) ==> machine.console.OffScreen()
    {
      KeyActs(machine.Seen(), m, code, machine.console.refusal);
      if code == ENTER {
        machine.KeyEnter();
      } else if code == BACKSPACE {
        machine.KeyBackspace();
      } else if !Silent(code) {
        InputHandler(m, code, here);
      }
    }

    method InputHandler(m: Mods, code: nat, here: Processes.Context)
      requires machine.Valid() && machine.kernel.IsHere(here)
      requires !SetsFlag(code) && !Silent(code) && code != ENTER && code != BACKSPACE
      modifies machine.console, machine.console.mem, machine.console.keyArr, machine.console.keysOld,
               machine.console.info, machine.kernel, machine.kernel.process, machine.kernel.count,
               machine.kernel.processTerminal, machine.kernel.terminalRunning, machine.kernel.pcb,
               machine.kernel.tables, machine.kernel.tables.pageDirectory
      ensures machine.Seen() == Acted(old(machine.Seen()), ActionOf(m, code), machine.console.refusal)
    {
      KeyActs(machine.Seen(), m, code, machine.console.refusal);
      if m.ctrl && code == KEY_L {
        machine.ClearAndPrompt();
        return;
      }
      if m.ctrl && code == KEY_C {
        return;
      }
      if code >= F4 {
        return;
      }
      if m.alt && code == F1 {
        var _ := machine.SwitchToTerminal(0, here);
        return;
      }
      if m.alt && code == F2 {
        var _ := machine.SwitchToTerminal(1, here);
        return;
      }
      if m.alt && code == F3 {
        var _ := machine.SwitchToTerminal(2, here);
        return;
      }
      if code >= F2 {
        return;
      }
      machine.KeyCharacter(CharOf(m, code));
    }
  }

  // ----------------------------------------------------- runs of scan codes

  function ModsAfterAll(m: Mods, codes: seq<nat>): Mods {
    if codes == [] then m else ModsAfter(ModsAfterAll(m, codes[..|codes| - 1]), codes[|codes| - 1])
  }

  predicate NoneFrom(codes: seq<nat>, n: nat, keys: set<nat>) {
    forall j :: n <= j < |codes| ==> codes[j] !in keys
  }

  /** The last of these keys' codes was a press, or none came and the key was held before. */
  predicate Held(was: bool, codes: seq<nat>, down: set<nat>, up: set<nat>) {
    || (was && NoneFrom(codes, 0, down + up))
    || exists n :: 0 <= n < |codes| && codes[n] in down && NoneFrom(codes, n + 1, down + up)
  }

  lemma HeldOneMore(was: bool, codes: seq<nat>, down: set<nat>, up: set<nat>)
    requires codes != [] && down !! up
    ensures var last := codes[|codes| - 1];
            Held(was, codes, down, up)
            <==> last in down || (last !in up && Held(was, codes[..|codes| - 1], down, up))
  {
    var init, last, keys := codes[..|codes| - 1], codes[|codes| - 1], down + up;
    if last in down {
      assert NoneFrom(codes, |codes|, keys);
    } else if last !in up {
      assert forall n :: NoneFrom(init, n, keys) <==> NoneFrom(codes, n, keys);
      if n :| 0 <= n < |init| && init[n] in down && NoneFrom(init, n + 1, keys) {
        assert codes[n] in down;
      }
      if n :| 0 <= n < |codes| && codes[n] in down && NoneFrom(codes, n + 1, keys) {
        assert init[n] in down;
      }
    } else {
      assert forall n :: 0 <= n < |codes| ==> !NoneFrom(codes, n, keys);
    }
  }

  /** Shift, Ctrl and Alt are held exactly if the last of their codes was a press - the two
      shift keys are one -, and every press of caps lock toggles it. */
  lemma ModifiersAreHeld(m: Mods, codes: seq<nat>)
    ensures var r := ModsAfterAll(m, codes);
            && (r.shift <==> Held(m.shift, codes, {0x2A, 0x36}, {0xAA, 0xB6}))
            && (r.ctrl <==> Held(m.ctrl, codes, {0x1D}, {0x9D}))
            && (r.alt <==> Held(m.alt, codes, {0x38}, {0xB8}))
            && (r.caps <==> m.caps != (multiset(codes)[0x3A] % 2 == 1))
  {
    ShiftIsHeld(m, codes);
    CtrlIsHeld(m, codes);
    AltIsHeld(m, codes);
    CapsIsToggled(m, codes);
  }

  lemma {:induction false} ShiftIsHeld(m: Mods, codes: seq<nat>)
    ensures ModsAfterAll(m, codes).shift <==> Held(m.shift, codes, {0x2A, 0x36}, {0xAA, 0xB6})
  {
    if codes != [] {
      ShiftIsHeld(m, codes[..|codes| - 1]);
      HeldOneMore(m.shift, codes, {0x2A, 0x36}, {0xAA, 0xB6});
    }
  }

  lemma {:induction false} CtrlIsHeld(m: Mods, codes: seq<nat>)
    ensures ModsAfterAll(m, codes).ctrl <==> Held(m.ctrl, codes, {0x1D}, {0x9D})
  {
    if codes != [] {
      CtrlIsHeld(m, codes[..|codes| - 1]);
      HeldOneMore(m.ctrl, codes, {0x1D}, {0x9D});
    }
  }

  lemma {:induction false} AltIsHeld(m: Mods, codes: seq<nat>)
    ensures ModsAfterAll(m, codes).alt <==> Held(m.alt, codes, {0x38}, {0xB8})
  {
    if codes != [] {
      AltIsHeld(m, codes[..|codes| - 1]);
      HeldOneMore(m.alt, codes, {0x38}, {0xB8});
    }
  }

  lemma {:induction false} CapsIsToggled(m: Mods, codes: seq<nat>)
    ensures ModsAfterAll(m, codes).caps <==> m.caps != (multiset(codes)[0x3A] % 2 == 1)
  {
    if codes != [] {
      assert codes == codes[..|codes| - 1] + [codes[|codes| - 1]];
      CapsIsToggled(m, codes[..|codes| - 1]);
    }
  }

  /** The console operations of a run that shows no other terminal. */
  function OpsOfAll(current: nat, m: Mods, codes: seq<nat>): seq<Op> {
    if codes == [] then []
    else
      var init := codes[..|codes| - 1];
      OpsOfAll(current, m, init) + OpsOf(current, ActionOf(ModsAfterAll(m, init), codes[|codes| - 1]), true, [])
  }

  /** The characters and backspaces a run of scan codes stands for. */
  function KeysOf(m: Mods, codes: seq<nat>): seq<Key> {
    if codes == [] then []
    else
      var init := codes[..|codes| - 1];
      match ActionOf(ModsAfterAll(m, init), codes[|codes| - 1])
      case Type(c) => KeysOf(m, init) + [Char(c)]
      case Rub => KeysOf(m, init) + [Backspace]
      case _ => KeysOf(m, init)
  }

  /** A run that only edits the line: no Enter, no Ctrl-L, no Alt-F1 to F3. */
  predicate OnlyEdits(m: Mods, codes: seq<nat>) {
    forall n {:trigger codes[n]} :: 0 <= n < |codes| ==>
      var a := ActionOf(ModsAfterAll(m, codes[..n]), codes[n]);
      !a.Submit? && !a.Reprompt? && !a.Show?
  }

  lemma {:induction false} KeysOfAreTypable(m: Mods, codes: seq<nat>)
    ensures Typable(KeysOf(m, codes))
  {
    if codes != [] {
      KeysOfAreTypable(m, codes[..|codes| - 1]);
    }
  }

  lemma OneMoreKey(d: Desk, ops: seq<Op>, ks: seq<Key>, a: Action)
    requires DeskSound(d) && OnScreen(d, ops) && Run(d, ops).current == d.current
    requires Run(d, ops).terms[d.current] == PressAll(d.terms[d.current], ks, Attrib(d.current))
    requires a.Type? || a.Rub?
    requires !BeforePrompt(Run(d, ops).terms[d.current])
    ensures var k := if a.Rub? then Backspace else Char(a.c);
            var more := ops + OpsOf(d.current, a, true, []);
            && OnScreen(d, more)
            && Run(d, more).current == d.current
            && Run(d, more).terms[d.current] == PressAll(d.terms[d.current], ks + [k], Attrib(d.current))
  {
    RunOneMore(d, ops, if a.Rub? then OpBackspace else OpKey(a.c));
    PressOneMore(d.terms[d.current], ks, if a.Rub? then Backspace else Char(a.c), Attrib(d.current));
    StepIsPress(Run(d, ops), a);
  }

  lemma StepIsPress(d: Desk, a: Action)
    requires DeskSound(d) && (a.Type? || a.Rub?) && !BeforePrompt(d.terms[d.current])
    ensures var r := Step(d, if a.Rub? then OpBackspace else OpKey(a.c));
            && r.current == d.current
            && r.terms[d.current]
               == Press(d.terms[d.current], if a.Rub? then Backspace else Char(a.c), Attrib(d.current))
  {
  }

  /** A run of editing scan codes does what the keys do that it spells, and never
      leaves the screen. */
  lemma {:induction false} ScanCodesPressKeys(d: Desk, m: Mods, codes: seq<nat>)
    requires DeskSound(d) && OnlyEdits(m, codes) && InLine(d.terms[d.current])
    ensures var ops := OpsOfAll(d.current, m, codes);
            && OnScreen(d, ops)
            && Run(d, ops).current == d.current
            && Run(d, ops).terms[d.current] == PressAll(d.terms[d.current], KeysOf(m, codes), Attrib(d.current))
  {
    if codes != [] {
      var init, last := codes[..|codes| - 1], codes[|codes| - 1];
      assert forall n :: 0 <= n < |init| ==> init[..n] == codes[..n] && init[n] == codes[n];
      ScanCodesPressKeys(d, m, init);
      var a := ActionOf(ModsAfterAll(m, init), last);
      if a.Type? || a.Rub? {
        NeverBeforePrompt(d.terms[d.current], KeysOf(m, init), Attrib(d.current), m, init);
        OneMoreKey(d, OpsOfAll(d.current, m, init), KeysOf(m, init), a);
      } else {
        assert OpsOfAll(d.current, m, codes) == OpsOfAll(d.current, m, init);
      }
    }
  }

  lemma NeverBeforePrompt(t: Terminal, ks: seq<Key>, attr: byte, m: Mods, codes: seq<nat>)
    requires Sound(t) && InLine(t) && ks == KeysOf(m, codes)
    ensures !BeforePrompt(PressAll(t, ks, attr))
  {
    KeysOfAreTypable(m, codes);
    TypingStaysOnScreen(t, ks, |ks|, attr);
    assert ks[..|ks|] == ks;
  }

  /** From the key matrix to the reading program: type anything at a fresh prompt,
      correct it as often as you like, press Enter - a read of `nbytes` bytes returns
      the line the keys spell, with its newline, cut to the 127 characters the buffer
      holds and to what was asked for. */
  lemma TypedLineIsDelivered(d: Desk, m: Mods, codes: seq<nat>, nbytes: int)
    requires DeskSound(d) && FreshPrompt(d.terms[d.current])
    requires OnlyEdits(m, codes) && FitsCounter(KeysOf(m, codes))
    ensures var line := Pending(KeysOf(m, codes)) + [LF];
            var t := Run(d, OpsOfAll(d.current, m, codes + [ENTER])).terms[d.current];
            Delivered(t, nbytes) == line[..if nbytes < 0 then 0 else Min(Min(|line|, 127), nbytes)]
  {
    EnteredKeys(d, m, codes);
    var line := Pending(KeysOf(m, codes)) + [LF];
    PrefixOfPrefix(line, Min(|line|, KEY_LIMIT), nbytes);
  }

  lemma EnteredKeys(d: Desk, m: Mods, codes: seq<nat>)
    requires DeskSound(d) && FreshPrompt(d.terms[d.current])
    requires OnlyEdits(m, codes) && FitsCounter(KeysOf(m, codes))
    ensures var line := Pending(KeysOf(m, codes)) + [LF];
            Run(d, OpsOfAll(d.current, m, codes + [ENTER])).terms[d.current].keys == line[..Min(|line|, KEY_LIMIT)]
  {
    KeysOfAreTypable(m, codes);
    ScanCodesPressKeys(d, m, codes);
    OpsOfEnter(d.current, m, codes);
    EnterSubmits(d, OpsOfAll(d.current, m, codes), KeysOf(m, codes));
  }

  lemma EnterSubmits(d: Desk, ops: seq<Op>, ks: seq<Key>)
    requires DeskSound(d) && FreshPrompt(d.terms[d.current]) && Typable(ks) && FitsCounter(ks)
    requires Run(d, ops).current == d.current
    requires Run(d, ops).terms[d.current] == PressAll(d.terms[d.current], ks, Attrib(d.current))
    ensures var line := Pending(ks) + [LF];
            Run(d, ops + [OpEnter]).terms[d.current].keys == line[..Min(|line|, KEY_LIMIT)]
  {
    RunEnter(d, ops);
    WhatYouSeeIsWhatYouSubmit(d.terms[d.current], ks, Attrib(d.current));
  }

  lemma PrefixOfPrefix(line: seq<byte>, n: nat, nbytes: int)
    requires n <= |line|
    ensures var k := if nbytes < 0 then 0 else Min(n, nbytes);
            line[..n][..k] == line[..k]
  {
  }

  lemma OpsOfEnter(current: nat, m: Mods, codes: seq<nat>)
    ensures OpsOfAll(current, m, codes + [ENTER]) == OpsOfAll(current, m, codes) + [OpEnter]
  {
    assert (codes + [ENTER])[..|codes|] == codes;
  }

  lemma RunEnter(d: Desk, ops: seq<Op>)
    requires DeskSound(d) && Run(d, ops).current == d.current
    ensures Run(d, ops + [OpEnter]).terms[d.current] == EnterKey(Run(d, ops).terms[d.current], Attrib(d.current))
  {
    assert (ops + [OpEnter])[..|ops|] == ops;
  }
}
