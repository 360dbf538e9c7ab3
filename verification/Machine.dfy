/**
 The console and the kernel's process state side by side: both keep the number of the
 terminal on display, and they agree on it.  Every system call, switch, tick and key
 keeps that, and the agreement of the process state exactly where Processes.dfy says.
 */
module Machines {
  import opened Common
  import opened Display
  import Desks
  import opened Consoles
  import opened Kernels
  import opened Processes

  datatype View = View(inOrder: bool, log: seq<Desks.Op>, state: State)

  function Told(v: View, op: Desks.Op): View { v.(log := v.log + [op]) }

  function Switched(v: View, t: nat, refusal: seq<Common.byte>): View
    requires Shaped(v.state)
  {
    v.(log := v.log + [SwitchOp(v.state.current, t, CanOpen(v.state, t), refusal)], state := Switch(v.state, t))
  }

  class Machine {
    const console: Console
    const kernel: Kernel

    constructor (console: Console, kernel: Kernel)
      requires console.Faithful() && kernel.Valid() && Sane(kernel.state) && console.current == kernel.current
      ensures this.console == console && this.kernel == kernel && Valid()
    {
      this.console, this.kernel := console, kernel;
    }

    ghost predicate Valid()
      reads console, console.mem, console.keyArr, console.keysOld, console.info,
            kernel, kernel.process, kernel.count, kernel.processTerminal, kernel.terminalRunning, kernel.pcb,
            kernel.tables, kernel.tables.pageDirectory, kernel.tables.pageTable, kernel.tables.pageTableVidmem
    {
      console.Faithful() && kernel.Valid() && Sane(kernel.state) && console.current == kernel.current
    }

    /** What there is to know of a machine: whether it is in order, what happened to
        the terminals, and its processes. */
    ghost function Seen(): View
      reads console, console.mem, console.keyArr, console.keysOld, console.info,
            kernel, kernel.process, kernel.count, kernel.processTerminal, kernel.terminalRunning, kernel.pcb,
            kernel.tables, kernel.tables.pageDirectory, kernel.tables.pageTable, kernel.tables.pageTableVidmem
    {
      View(Valid(), console.log, kernel.state)
    }

    /** A terminal is shown if it runs or a process is free for its shell. */
    method CanShow(t: nat) returns (can: bool)
      requires kernel.Valid()
      ensures can == CanOpen(kernel.state, t)
    {
      var p := kernel.GetPid();
      can := t < TERMINALS && (kernel.terminalRunning[t] || p != -1);
    }

    /** The console is not part of the process state, nor the other way round. */
    twostate lemma KernelKept()
      requires old(kernel.Valid())
      requires unchanged(kernel, kernel.process, kernel.count, kernel.processTerminal, kernel.terminalRunning)
      requires unchanged(kernel.pcb, kernel.tables)
      requires unchanged(kernel.tables.pageDirectory, kernel.tables.pageTable, kernel.tables.pageTableVidmem)
      ensures kernel.Valid() && kernel.state == old(kernel.state)
    {
    }

    twostate lemma ConsoleKept()
      requires old(console.Faithful())
      requires unchanged(console, console.mem, console.keyArr, console.keysOld, console.info)
      ensures console.Faithful() && console.log == old(console.log)
    {
    }

    method SwitchDisplay(t: nat, can: bool) returns (r: int)
      requires console.Faithful() && kernel.Valid()
      modifies console, console.mem, console.keyArr, console.keysOld, console.info
      ensures console.Faithful() && kernel.Valid() && kernel.state == old(kernel.state)
      ensures console.log == old(console.log) + [SwitchOp(old(console.current), t, can, console.refusal)]
      ensures console.current == if t < TERMINALS && can then t else old(console.current)
      ensures r == if t >= TERMINALS || (t != old(console.current) && !can) then -1 else 0
    {
      r := console.SwitchToTerminal(t, can);
      KernelKept();
    }

    method SwitchProcesses(t: nat, here: Context) returns (r: int)
      requires console.Faithful() && kernel.Valid() && kernel.IsHere(here)
      modifies kernel, kernel.process, kernel.count, kernel.processTerminal, kernel.terminalRunning, kernel.pcb,
               kernel.tables, kernel.tables.pageDirectory
      ensures console.Faithful() && kernel.Valid() && kernel.state == Switch(old(kernel.state), t)
      ensures console.log == old(console.log) && console.current == old(console.current)
      ensures r == if t < TERMINALS && (t == old(kernel.current) || CanOpen(old(kernel.state), t)) then 0 else -1
    {
      r := kernel.SwitchToTerminal(t, here);
      ConsoleKept();
    }

    method SwitchBoth(t: nat, can: bool, here: Context) returns (r: int)
      requires console.Faithful() && kernel.Valid() && kernel.IsHere(here) && can == CanOpen(kernel.state, t)
      requires t == kernel.current ==> can
      modifies console, console.mem, console.keyArr, console.keysOld, console.info,
               kernel, kernel.process, kernel.count, kernel.processTerminal, kernel.terminalRunning, kernel.pcb,
               kernel.tables, kernel.tables.pageDirectory
      ensures console.Faithful() && kernel.Valid() && kernel.state == Switch(old(kernel.state), t)
      ensures console.log == old(console.log) + [SwitchOp(old(console.current), t, can, console.refusal)]
      ensures console.current == if can then t else old(console.current)
      ensures r == if can then 0 else -1
    {
      var _ := SwitchDisplay(t, can);
      r := SwitchProcesses(t, here);
    }

    /** `switch_to_terminal`: the display and the processes switch together, or neither
        does and the refusal is printed. */
    method SwitchToTerminal(t: nat, here: Context) returns (r: int)
      requires Valid() && kernel.IsHere(here)
      modifies console, console.mem, console.keyArr, console.keysOld, console.info,
               kernel, kernel.process, kernel.count, kernel.processTerminal, kernel.terminalRunning, kernel.pcb,
               kernel.tables, kernel.tables.pageDirectory
      ensures Valid() && kernel.state == Switch(old(kernel.state), t)
      ensures r == if CanOpen(old(kernel.state), t) then 0 else -1
      ensures console.current == if r == 0 then t else old(console.current)
      ensures console.log == old(console.log) + [SwitchOp(old(console.current), t, r == 0, console.refusal)]
      ensures Seen() == Switched(old(Seen()), t, console.refusal)
    {
      ghost var k := kernel.state;
      CurrentCanOpen(k);
      r := SwitchOrRefuse(t, here);
      SwitchIsSane(k, kernel.state, t);
    }

    method SwitchOrRefuse(t: nat, here: Context) returns (r: int)
      requires console.Faithful() && kernel.Valid() && kernel.IsHere(here)
      requires CanOpen(kernel.state, kernel.current)
      modifies console, console.mem, console.keyArr, console.keysOld, console.info,
               kernel, kernel.process, kernel.count, kernel.processTerminal, kernel.terminalRunning, kernel.pcb,
               kernel.tables, kernel.tables.pageDirectory
      ensures console.Faithful() && kernel.Valid() && kernel.state == Switch(old(kernel.state), t)
      ensures r == if CanOpen(old(kernel.state), t) then 0 else -1
      ensures console.current == if r == 0 then t else old(console.current)
      ensures console.log == old(console.log) + [SwitchOp(old(console.current), t, r == 0, console.refusal)]
    {
      var can := CanShow(t);
      r := SwitchBoth(t, can, here);
    }

    /** `terminal_write` by the process that has the processor: it looks up its terminal
        and always finds the running one. */
    method TerminalWrite(bytes: seq<Common.byte>) returns (r: int)
      requires Valid()
      modifies console, console.mem, console.info
      ensures Valid() && kernel.state == old(kernel.state)
      ensures r == |bytes| && console.log == old(console.log) + [Desks.OpWrite(kernel.running, bytes)]
    {
      var tid := FindTerminal();
      r := WriteFor(tid, bytes);
    }

    method FindTerminal() returns (tid: nat)
      requires kernel.Valid() && Sane(kernel.state)
      ensures tid == kernel.running < TERMINALS
    {
      tid := kernel.GetTerminalId(kernel.cpu);
      RunsOnItsTerminal(kernel.state, tid);
    }

    method WriteFor(tid: nat, bytes: seq<Common.byte>) returns (r: int)
      requires console.Faithful() && kernel.Valid() && tid < TERMINALS
      modifies console, console.mem, console.info
      ensures console.Faithful() && kernel.Valid() && kernel.state == old(kernel.state)
      ensures console.current == old(console.current)
      ensures r == |bytes| && console.log == old(console.log) + [Desks.OpWrite(tid, bytes)]
    {
      r := console.TerminalWrite(tid, bytes);
      KernelKept();
    }

    // ------------------------------------------------- the process side alone

    method ExecuteInKernel(loadable: bool, here: Context) returns (r: int)
      requires console.Faithful() && kernel.Valid() && kernel.IsHere(here)
      modifies kernel, kernel.process, kernel.count, kernel.processTerminal, kernel.pcb,
               kernel.tables, kernel.tables.pageDirectory
      ensures console.Faithful() && kernel.Valid() && kernel.state == Processes.Execute(old(kernel.state), loadable)
      ensures console.log == old(console.log) && console.current == old(console.current)
      ensures r == if loadable && FreePid(old(kernel.state.stacks)) < MAX_TASK then 0 else -1
    {
      r := kernel.Execute(loadable, here);
      ConsoleKept();
    }

    /** `execute`: the machine stays in order exactly if the call is permitted. */
    method Execute(loadable: bool, here: Context) returns (r: int)
      requires Valid() && kernel.IsHere(here)
      modifies kernel, kernel.process, kernel.count, kernel.processTerminal, kernel.pcb,
               kernel.tables, kernel.tables.pageDirectory
      ensures Valid() <==> Permitted(old(kernel.state), OpExecute(loadable))
      ensures console.Faithful() && kernel.Valid() && kernel.state == Processes.Execute(old(kernel.state), loadable)
      ensures console.log == old(console.log)
      ensures r == if loadable && FreePid(old(kernel.state.stacks)) < MAX_TASK then 0 else -1
    {
      StepIsSaneIff(kernel.state, Processes.Execute(kernel.state, loadable), OpExecute(loadable));
      r := ExecuteInKernel(loadable, here);
    }

    method HaltInKernel(here: Context)
      requires console.Faithful() && kernel.Valid() && CanHalt(kernel.state) && kernel.IsHere(here)
      modifies kernel, kernel.process, kernel.count, kernel.processTerminal, kernel.pcb,
               kernel.tables, kernel.tables.pageDirectory
      ensures console.Faithful() && kernel.Valid() && kernel.state == Processes.Halt(old(kernel.state))
      ensures console.log == old(console.log) && console.current == old(console.current)
    {
      kernel.Halt(here);
      ConsoleKept();
    }

    /** `halt`: always possible, and again in order exactly if permitted. */
    method Halt(here: Context)
      requires Valid() && kernel.IsHere(here)
      modifies kernel, kernel.process, kernel.count, kernel.processTerminal, kernel.pcb,
               kernel.tables, kernel.tables.pageDirectory
      ensures Valid() <==> Permitted(old(kernel.state), OpHalt)
      ensures console.Faithful() && kernel.Valid()
      ensures CanHalt(old(kernel.state)) && kernel.state == Processes.Halt(old(kernel.state))
      ensures console.log == old(console.log)
    {
      SaneCanHalt(kernel.state);
      StepIsSaneIff(kernel.state, Processes.Halt(kernel.state), OpHalt);
      HaltInKernel(here);
    }

    method TickInKernel(here: Context)
      requires console.Faithful() && kernel.Valid() && CanTick(kernel.state) && kernel.IsHere(here)
      modifies kernel, kernel.pcb, kernel.tables, kernel.tables.pageDirectory, kernel.tables.pageTableVidmem
      ensures console.Faithful() && kernel.Valid() && kernel.state == Tick(old(kernel.state))
      ensures console.log == old(console.log) && console.current == old(console.current)
    {
      kernel.PitHandler(here);
      ConsoleKept();
    }

    /** `pit_handler`: there always is a context to resume, and the machine stays in
        order. */
    method PitHandler(here: Context)
      requires Valid() && kernel.IsHere(here)
      modifies kernel, kernel.pcb, kernel.tables, kernel.tables.pageDirectory, kernel.tables.pageTableVidmem
      ensures Valid()
      ensures CanTick(old(kernel.state)) && kernel.state == Tick(old(kernel.state))
      ensures console.log == old(console.log)
    {
      TickKeepsSane(kernel.state);
      StepIsSaneIff(kernel.state, Tick(kernel.state), OpTick);
      TickInKernel(here);
    }

    // ------------------------------------------------- the console side alone

    method KeyCharacter(c: Common.byte)
      requires Valid()
      modifies console, console.mem, console.keyArr
      ensures Valid() && Seen() == Told(old(Seen()), Desks.OpKey(c))
    {
      console.KeyCharacter(c);
      KernelKept();
    }

    method KeyEnter()
      requires Valid()
      modifies console, console.mem, console.keyArr
      ensures Valid() && Seen() == Told(old(Seen()), Desks.OpEnter)
    {
      console.KeyEnter();
      KernelKept();
    }

    method ClearAndPrompt()
      requires Valid()
      modifies console, console.mem
      ensures Valid() && Seen() == Told(old(Seen()), Desks.OpClear)
    {
      console.ClearAndPrompt();
      KernelKept();
    }

    method BackspaceInLine()
      requires Valid() && !console.Astray()
      modifies console, console.mem
      ensures Valid() && Seen() == Told(old(Seen()), Desks.OpBackspace)
    {
      console.KeyBackspace();
      KernelKept();
    }

    method BackspaceAstray()
      requires Valid() && console.Astray() && console.screenY > 0
      modifies console, console.mem
      ensures Seen() == old(Seen()).(inOrder := false) && console.OffScreen()
    {
      console.KeyBackspace();
      KernelKept();
    }

    /** Backspace keeps the machine in order exactly if the cursor was not astray. */
    method KeyBackspace()
      requires Valid() && (console.Astray() ==> console.screenY > 0)
      modifies console, console.mem
      ensures Seen() == if old(console.Astray()) then old(Seen()).(inOrder := false)
                        else Told(old(Seen()), Desks.OpBackspace)
      ensures old(console.Astray()) ==> console.OffScreen()
    {
      if console.Astray() {
        BackspaceAstray();
      } else {
        BackspaceInLine();
      }
    }
  }

  /** Terminal `t` runs or a process is free for its shell. */
  predicate CanOpen(k: State, t: nat)
    requires Shaped(k)
  {
    t < TERMINALS && (k.started[t] || FreePid(k.stacks) < MAX_TASK)
  }

  lemma CurrentCanOpen(k: State)
    requires Sane(k)
    ensures CanOpen(k, k.current)
  {
  }

  /** A switch keeps the state sane, and shows the terminal if it can. */
  lemma SwitchIsSane(k: State, r: State, t: nat)
    requires Sane(k) && r == Switch(k, t)
    ensures Sane(r) && r.current == if CanOpen(k, t) then t else k.current
    ensures t == k.current ==> CanOpen(k, t)
  {
    SwitchKeepsSane(k, t);
  }

  /** No call and no tick changes what is on display. */
  lemma StepIsSaneIff(k: State, r: State, op: Processes.Op)
    requires Sane(k) && r == Processes.Step(k, op) && !op.OpSwitch?
    ensures Sane(r) <==> Permitted(k, op)
    ensures r.current == k.current
  {
    StepKeepsSaneIff(k, op);
  }

  /** The page that a background terminal's user maps as video memory is the one on which
      the console draws for it, two bytes a cell. */
  lemma UserVideoIsSavedPage(t: nat)
    requires t < TERMINALS
    ensures BufferVideo(t) / 4096 * 4096 == 0xB_8000 + 2 * Saved(t)
    ensures REAL_VIDEO / 4096 * 4096 == 0xB_8000
    ensures CELLS <= BAR_END <= PAGE && Saved(t) + PAGE <= MEMORY
    ensures forall u :: 0 <= u < TERMINALS && u < t ==> Saved(u) + PAGE <= Saved(t)
  {
  }

  lemma RunsOnItsTerminal(k: State, t: nat)
    requires Sane(k)
    ensures Used(k.stacks, k.cpu)
    ensures t < TERMINALS && k.cpu in k.stacks[t] ==> t == k.running
  {
    OnStackIsUsed(k.stacks, k.running, |k.stacks[k.running]| - 1);
    if t < TERMINALS && k.cpu in k.stacks[t] {
      var i :| 0 <= i < |k.stacks[t]| && k.stacks[t][i] == k.cpu;
      assert k.stacks[t][i] == k.stacks[k.running][|k.stacks[k.running]| - 1];
    }
  }
}
