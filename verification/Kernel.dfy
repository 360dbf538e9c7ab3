/**
 The kernel's own process state - table, per-terminal rows and counts, PCBs, page
 entry, TSS - updated in place and proved against Processes.dfy.
 */
module Kernels {
  import opened Common
  import opened Processes
  import Paging

  /** The entries of the processes on the stacks are 1, all others 0. */
  predicate Marks(table: seq<nat>, s: Stacks) {
    |table| == MAX_TASK && forall p :: 0 <= p < MAX_TASK ==> table[p] == if Used(s, p) then 1 else 0
  }

  /** The table marks exactly the processes on the stacks, which are all distinct;
      the PCB of a process in use carries its id. */
  ghost predicate Consistent(k: State, table: seq<nat>) {
    && Shaped(k) && Distinct(k.stacks)
    && Marks(table, k.stacks)
    && (forall p :: 0 <= p < MAX_TASK && Used(k.stacks, p) ==> k.pcb[p].pid == p)
  }

  lemma PushUsed(s: Stacks, t: nat, p: nat, q: nat)
    requires t < TERMINALS
    ensures Used(Push(s, t, p), q) <==> q == p || Used(s, q)
  {
    assert forall x :: x in s[t] + [p] <==> x in s[t] || x == p;
  }

  lemma PopUsed(s: Stacks, t: nat, q: nat)
    requires t < TERMINALS && s[t] != [] && Distinct(s)
    ensures Used(s[t := s[t][..|s[t]| - 1]], q) <==> Used(s, q) && q != Top(s[t])
  {
    PopDistinct(s, t);
    var r := s[t := s[t][..|s[t]| - 1]];
    AbsentIffUnused(r, Top(s[t]));
    assert s[t] == s[t][..|s[t]| - 1] + [Top(s[t])];
    assert forall x :: x in s[t] <==> x in r[t] || x == Top(s[t]);
  }

  lemma TopIsInUse(k: State, table: seq<nat>)
    requires Consistent(k, table) && k.stacks[k.running] != []
    ensures var p := Top(k.stacks[k.running]); p < MAX_TASK && k.pcb[p].pid == p
  {
    OnStackIsUsed(k.stacks, k.running, |k.stacks[k.running]| - 1);
  }

  lemma ExecuteConsistent(k: State, table: seq<nat>)
    requires Consistent(k, table) && FreePid(k.stacks) < MAX_TASK
    ensures |k.stacks[k.current]| < MAX_TASK
    ensures Consistent(Execute(k, true), table[FreePid(k.stacks) := 1])
  {
    var p, r := FreePid(k.stacks), Execute(k, true);
    RoomOnEveryStack(k.stacks, k.current);
    PushedTable(k.stacks, r.stacks, k.current, p, table);
    assert Shaped(r) && forall q :: 0 <= q < MAX_TASK ==> r.pcb[q].pid == if q == p then p else k.pcb[q].pid;
  }

  lemma PushedTable(s: Stacks, r: Stacks, t: nat, p: nat, table: seq<nat>)
    requires Distinct(s) && Marks(table, s) && t < TERMINALS && p < MAX_TASK && !Used(s, p) && r == Push(s, t, p)
    ensures Distinct(r) && Marks(table[p := 1], r)
    ensures forall q :: 0 <= q < MAX_TASK ==> (Used(r, q) <==> q == p || Used(s, q))
  {
    AbsentIffUnused(s, p);
    PushDistinct(s, t, p);
    forall q | 0 <= q < MAX_TASK
      ensures Used(r, q) <==> q == p || Used(s, q)
    {
      PushUsed(s, t, p, q);
    }
  }

  lemma PoppedConsistent(k: State, table: seq<nat>)
    requires Consistent(k, table) && k.stacks[k.running] != []
    ensures Consistent(Popped(k), table[Top(k.stacks[k.running]) := 0])
    ensures FreePid(Popped(k).stacks) < MAX_TASK
  {
    var p := Top(k.stacks[k.running]);
    PopDistinct(k.stacks, k.running);
    var r := Popped(k).stacks;
    forall q | 0 <= q < MAX_TASK
      ensures Used(r, q) <==> Used(k.stacks, q) && q != p
    {
      PopUsed(k.stacks, k.running, q);
    }
    FreeBelow(r, p);
  }

  /** Before the first process. */
  ghost function EmptyState(): (k: State)
    ensures Shaped(k)
  {
    State([[], [], []], [true, false, false], 0, 0, Paging.R_W, 0, 0, 0,
          seq(MAX_TASK, _ => Pcb(0, 0, None, None)), seq(MAX_TASK, _ => 0), 0, seq(TERMINALS, _ => 0))
  }

  lemma EmptyIsConsistent(table: seq<nat>)
    requires |table| == MAX_TASK && forall p :: 0 <= p < MAX_TASK ==> table[p] == 0
    ensures Consistent(EmptyState(), table)
  {
  }

  lemma FirstShell()
    ensures Sane(Execute(EmptyState(), true)) && Execute(EmptyState(), true).stacks == [[0], [], []]
  {
    var k := EmptyState();
    BootIsSane(k);
    assert k == k.(stacks := [[], [], []], started := [true, false, false], current := 0, running := 0);
  }

  lemma ResumedConsistent(k: State, table: seq<nat>, next: nat, p: nat)
    requires Consistent(k, table) && next < TERMINALS && p < MAX_TASK
    requires k.pcb[p].schedule.Some? && k.pcb[p].schedule.value.pid < MAX_TASK
    ensures Consistent(Resumed(k, next, p), table)
  {
  }

  lemma CreatedFields(k: State, p: nat, parent: nat)
    requires Shaped(k) && p == FreePid(k.stacks) < MAX_TASK
    requires parent == if p != 0 && k.stacks[k.current] != [] then Top(k.stacks[k.current]) else 0
    ensures var r := Execute(k, true);
            && r.stacks == Push(k.stacks, k.current, p)
            && r.pcb == k.pcb[p := k.pcb[p].(pid := p, parentPid := parent, parent := Some(Here(k)))]
            && r.started == k.started && r.current == k.current && r.running == k.running && r.video == k.video
            && r.page == ProgramEntry(p) && r.esp0 == StackTop(p) && r.cpu == p
  {
  }

  lemma PoppedFields(k: State, p: nat, parent: nat)
    requires Shaped(k) && k.stacks[k.running] != []
    requires p == Top(k.stacks[k.running]) && parent == k.pcb[p].parentPid
    ensures var r, stack := Popped(k), k.stacks[k.running];
            && parent < MAX_TASK
            && r.stacks == k.stacks[k.running := stack[..|stack| - 1]]
            && r.started == k.started && r.video == k.video && r.pcb == k.pcb
            && r.current == k.current && r.running == k.running
            && r.page == ProgramEntry(parent) && r.esp0 == StackTop(parent) && r.cpu == k.cpu
  {
  }

  class Kernel {
    const process: array<nat>
    const processTerminal: array<nat>
    const count: array<nat>
    const terminalRunning: array<bool>
    const pcb: array<Pcb>
    var current: nat
    var running: nat
    const tables: Paging.PageTables
    var esp0: int
    var cpu: nat
    ghost var state: State    // the same, as a value

    /** `init_page`, then `init_terminal`: empty rows and the first shell.  The linker
        put the page tables at `lowAt` and `vidAt`. */
    constructor (lowAt: nat, vidAt: nat)
      requires lowAt % FOUR_KB == 0 && vidAt % FOUR_KB == 0 && lowAt != vidAt
      ensures Valid() && Sane(state) && state.stacks == [[0], [], []]
      ensures fresh(process) && fresh(processTerminal) && fresh(count) && fresh(terminalRunning) && fresh(pcb)
    {
      process := new nat[MAX_TASK](_ => 0);
      processTerminal := new nat[TERMINALS * MAX_TASK](_ => 0);
      count := new nat[TERMINALS](_ => 0);
      terminalRunning := new bool[TERMINALS](i => i == 0);
      pcb := new Pcb[MAX_TASK](_ => Pcb(0, 0, None, None));
      current, running, esp0, cpu := 0, 0, 0, 0;
      state := EmptyState();
      tables := new Paging.PageTables(lowAt, vidAt);
      new;
      tables.InitPage();
      Blank();
      FirstShell();
      var _ := Execute(true, Context(0, 0, 0));
    }

    lemma Blank()
      requires Sized() && state == EmptyState() && terminalRunning[..] == state.started && pcb[..] == state.pcb
      requires forall p :: 0 <= p < MAX_TASK ==> process[p] == 0
      requires forall t :: 0 <= t < TERMINALS ==> count[t] == 0
      requires forall i :: 0 <= i < TERMINALS * MAX_TASK ==> processTerminal[i] == 0
      requires current == 0 && running == 0 && esp0 == 0 && cpu == 0
      requires tables.Valid() && Paging.Run(tables.log) == Paging.AT_BOOT
      ensures Valid()
    {
      EmptyIsConsistent(process[..]);
      assert forall t :: 0 <= t < TERMINALS ==> Stack(t) == [];
    }

    predicate Sized()
      reads count
    {
      && process.Length == MAX_TASK && processTerminal.Length == TERMINALS * MAX_TASK
      && count.Length == TERMINALS && terminalRunning.Length == TERMINALS && pcb.Length == MAX_TASK
      && process != processTerminal && process != count && processTerminal != count
      && NoTable(process) && NoTable(processTerminal) && NoTable(count)
      && forall t :: 0 <= t < TERMINALS ==> count[t] <= MAX_TASK
    }

    predicate NoTable(a: array<nat>) {
      a != tables.pageDirectory && a != tables.pageTable && a != tables.pageTableVidmem
    }

    function Stack(t: nat): seq<nat>
      requires Sized() && t < TERMINALS
      reads count, processTerminal
    {
      processTerminal[MAX_TASK * t..MAX_TASK * t + count[t]]
    }

    function TheStacks(): Stacks
      requires Sized()
      reads count, processTerminal
    {
      [Stack(0), Stack(1), Stack(2)]
    }

    lemma StackAt(t: nat)
      requires Sized() && t < TERMINALS
      ensures TheStacks()[t] == Stack(t)
    {
    }

    predicate ClearAbove(t: nat)
      requires Sized() && t < TERMINALS
      reads count, processTerminal
    {
      forall i :: MAX_TASK * t + count[t] <= i < MAX_TASK * (t + 1) ==> processTerminal[i] == 0
    }

    /** Cells above a count hold 0. */
    predicate Clear()
      requires Sized()
      reads count, processTerminal
    {
      forall t :: 0 <= t < TERMINALS ==> ClearAbove(t)
    }

    /** What arrays, registers and page tables hold. */
    ghost function Image(): State
      requires Sized()
      reads this, count, processTerminal, terminalRunning, pcb, tables
    {
      var l := Paging.Run(tables.log);
      State(TheStacks(), terminalRunning[..], current, running, Paging.ProgramWord(l), esp0, Paging.VideoWord(l), cpu,
            pcb[..], state.life, state.clock, state.leftAt)
    }

    /** That is what `state` says. */
    ghost predicate Mirrored()
      reads this, count, processTerminal, terminalRunning, pcb,
            tables, tables.pageDirectory, tables.pageTable, tables.pageTableVidmem
    {
      Sized() && Clear() && tables.Valid() && state == Image()
    }

    /** Field by field. */
    lemma FieldsMirror()
      requires Sized() && Clear() && tables.Valid()
      requires state.stacks == TheStacks() && state.started == terminalRunning[..] && state.pcb == pcb[..]
      requires state.current == current && state.running == running && state.esp0 == esp0 && state.cpu == cpu
      requires state.page == Paging.ProgramWord(Paging.Run(tables.log))
      requires state.video == Paging.VideoWord(Paging.Run(tables.log))
      ensures Mirrored()
    {
    }

    ghost predicate Valid()
      reads this, process, count, processTerminal, terminalRunning, pcb,
            tables, tables.pageDirectory, tables.pageTable, tables.pageTableVidmem
    {
      Mirrored() && Consistent(state, process[..])
    }

    /** `get_pid` */
    method GetPid() returns (r: int)
      requires Valid()
      ensures r == if FreePid(TheStacks()) < MAX_TASK then FreePid(TheStacks()) else -1
    {
      var p := 0;
      while p < MAX_TASK
        invariant 0 <= p <= MAX_TASK
        invariant FreeFrom(TheStacks(), 0) == FreeFrom(TheStacks(), p)
      {
        if process[..][p] == 0 {
          return p;
        }
        p := p + 1;
      }
      return -1;
    }

    /** `get_terminal_id` scans every cell, also those above the counts. */
    method GetTerminalId(pid: nat) returns (r: nat)
      requires Valid() && Sane(state)
      ensures Used(TheStacks(), pid) ==> r < TERMINALS && pid in Stack(r)
      ensures !Used(TheStacks(), pid) ==> pid != 0 && r == 0x3F
    {
      ghost var found;
      r, found := ScanCells(pid);
      if r < TERMINALS {
        FoundOnStack(pid, r, found);
      } else {
        FoundNowhere(pid);
      }
    }

    /** The first cell that holds the id; `at` is its number. */
    method ScanCells(pid: nat) returns (r: nat, ghost at: nat)
      requires Sized()
      ensures if r < TERMINALS then MAX_TASK * r <= at < MAX_TASK * (r + 1) && processTerminal[at] == pid
              else r == 0x3F && at == TERMINALS * MAX_TASK
      ensures forall k :: 0 <= k < at ==> processTerminal[k] != pid
    {
      var i := 0;
      while i < TERMINALS
        invariant 0 <= i <= TERMINALS
        invariant forall k :: 0 <= k < MAX_TASK * i ==> processTerminal[k] != pid
      {
        var j := 0;
        while j < MAX_TASK
          invariant 0 <= j <= MAX_TASK
          invariant forall k :: 0 <= k < MAX_TASK * i + j ==> processTerminal[k] != pid
        {
          if processTerminal[MAX_TASK * i + j] == pid {
            return i, MAX_TASK * i + j;
          }
          j := j + 1;
        }
        i := i + 1;
      }
      return 0x3F, TERMINALS * MAX_TASK;
    }

    /** A cell above a count holds 0, and the first cell of all holds process 0. */
    lemma FoundOnStack(pid: nat, r: nat, at: nat)
      requires Valid() && Sane(state) && r < TERMINALS
      requires MAX_TASK * r <= at < MAX_TASK * (r + 1) && processTerminal[at] == pid
      requires forall k :: 0 <= k < at ==> processTerminal[k] != pid
      ensures pid in Stack(r) && Used(TheStacks(), pid)
    {
      FirstCell();
      assert ClearAbove(r);
      assert pid == 0 ==> at == 0;
      assert Stack(r)[at - MAX_TASK * r] == pid;
      StackAt(r);
    }

    lemma FoundNowhere(pid: nat)
      requires Valid() && Sane(state)
      requires forall k :: 0 <= k < TERMINALS * MAX_TASK ==> processTerminal[k] != pid
      ensures !Used(TheStacks(), pid) && pid != 0
    {
      FirstCell();
      forall t | 0 <= t < TERMINALS
        ensures pid !in Stack(t)
      {
        assert forall j :: 0 <= j < count[t] ==> Stack(t)[j] == processTerminal[MAX_TASK * t + j];
      }
    }

    lemma FirstCell()
      requires Valid() && Sane(state)
      ensures processTerminal[0] == 0 && count[0] > 0
    {
      StackAt(0);
      assert Stack(0)[0] == processTerminal[0];
    }

    /** Write `p` above the stack of terminal `t` and count it. */
    method PushPid(t: nat, p: nat)
      requires Sized() && Clear() && t < TERMINALS && count[t] < MAX_TASK
      modifies count, processTerminal
      ensures Sized() && Clear() && TheStacks() == Push(old(TheStacks()), t, p)
    {
      count[t] := count[t] + 1;
      processTerminal[MAX_TASK * t + count[t] - 1] := p;
      forall u | 0 <= u < TERMINALS
        ensures ClearAbove(u)
        ensures Stack(u) == if u == t then old(Stack(u)) + [p] else old(Stack(u))
      {
        assert old(ClearAbove(u));
      }
    }

    method PopPid(t: nat)
      requires Sized() && Clear() && t < TERMINALS && count[t] > 0
      modifies count, processTerminal
      ensures Sized() && Clear() && count[t] == old(count[t]) - 1
      ensures TheStacks() == old(TheStacks())[t := old(Stack(t))[..old(count[t]) - 1]]
    {
      processTerminal[MAX_TASK * t + count[t] - 1] := 0;
      count[t] := count[t] - 1;
      assert old(ClearAbove(t)) && ClearAbove(t);
      assert Stack(t) == old(Stack(t))[..old(count[t]) - 1];
      forall u | 0 <= u < TERMINALS && u != t
        ensures ClearAbove(u) && Stack(u) == old(Stack(u))
      {
        assert old(ClearAbove(u));
        RowKept(u);
      }
    }

    /** A row that is not written to. */
    twostate lemma RowKept(u: nat)
      requires Sized() && old(Sized()) && u < TERMINALS && count[u] == old(count[u])
      requires forall i :: MAX_TASK * u <= i < MAX_TASK * (u + 1) ==> processTerminal[i] == old(processTerminal[i])
      ensures old(ClearAbove(u)) ==> ClearAbove(u)
      ensures Stack(u) == old(Stack(u))
    {
    }

    /** The lowest free process id, marked as in use; 6 if there is none. */
    method ClaimPid() returns (p: nat)
      requires Valid()
      modifies process
      ensures p == FreePid(TheStacks())
      ensures process[..] == if p < MAX_TASK then old(process[..])[p := 1] else old(process[..])
      ensures p == MAX_TASK ==> unchanged(process)
    {
      p := 0;
      ghost var table := process[..];
      while p < MAX_TASK
        invariant 0 <= p <= MAX_TASK
        invariant FreeFrom(TheStacks(), 0) == FreeFrom(TheStacks(), p)
        invariant process[..] == table && unchanged(process)
      {
        assert table[p] == process[p];
        if process[p] == 0 {
          process[p] := 1;
          return;
        }
        p := p + 1;
      }
    }

    /** The process below: the top of the terminal on display, process 0 for the
        root of another terminal, the process itself for process 0. */
    method ParentOf(newPid: nat) returns (parent: nat)
      requires Mirrored() && Shaped(state)
      requires forall p :: 0 <= p < MAX_TASK && Used(state.stacks, p) ==> state.pcb[p].pid == p
      requires newPid == FreePid(state.stacks)
      ensures parent == if newPid != 0 && state.stacks[current] != [] then Top(state.stacks[current]) else 0
    {
      if newPid == 0 {
        return newPid;
      }
      StackAt(current);
      if count[current] != 0 {
        OnStackIsUsed(state.stacks, current, count[current] - 1);
        return pcb[processTerminal[MAX_TASK * current + count[current] - 1]].pid;
      }
      assert Used(state.stacks, 0);
      return pcb[0].pid;
    }

    /** `execute`; `loadable`: the named file exists and starts with the magic
        number of an executable. */
    method Execute(loadable: bool, here: Context) returns (r: int)
      requires Valid() && IsHere(here)
      modifies this`esp0, this`cpu, this`state, tables, tables.pageDirectory, process, processTerminal, count, pcb
      ensures Valid() && state == Processes.Execute(old(state), loadable)
      ensures r == if loadable && FreePid(old(state.stacks)) < MAX_TASK then 0 else -1
      ensures r == -1 ==> unchanged(this, process, processTerminal, count, pcb, tables, tables.pageDirectory)
    {
      if !loadable {
        return -1;
      }
      var newPid := ClaimPid();
      if newPid >= MAX_TASK {
        return -1;
      }
      Launch(newPid, here, old(process[..]));
      return 0;
    }

    /** `execute` once a process id is claimed: the PCB, the stacks, the page. */
    method Launch(newPid: nat, here: Context, ghost table: seq<nat>)
      requires Mirrored() && Consistent(state, table) && IsHere(here)
      requires newPid == FreePid(state.stacks) < MAX_TASK && process[..] == table[newPid := 1]
      modifies this`esp0, this`cpu, this`state, tables, tables.pageDirectory, processTerminal, count, pcb
      ensures Valid() && state == Processes.Execute(old(state), true)
    {
      ExecuteConsistent(state, table);
      var parent := ParentOf(newPid);
      CreatedFields(state, newPid, parent);
      StackAt(current);
      CreateProcess(newPid, parent, here, Processes.Execute(state, true));
    }

    method StoreProcess(p: nat, parent: nat, here: Context)
      requires Sized() && Clear() && current < TERMINALS && p < MAX_TASK && count[current] < MAX_TASK
      modifies processTerminal, count, pcb
      ensures Sized() && Clear() && TheStacks() == Push(old(TheStacks()), current, p)
      ensures pcb[..] == old(pcb[..])[p := old(pcb[p]).(pid := p, parentPid := parent, parent := Some(here))]
    {
      pcb[p] := pcb[p].(pid := p, parentPid := parent, parent := Some(here));
      PushPid(current, p);
    }

    /** `r` is the state this leads to. */
    method CreateProcess(newPid: nat, parent: nat, here: Context, ghost r: State)
      requires Mirrored() && current < TERMINALS && newPid < MAX_TASK && count[current] < MAX_TASK
      requires r.stacks == Push(state.stacks, current, newPid)
      requires r.pcb
               == state.pcb[newPid := state.pcb[newPid].(pid := newPid, parentPid := parent, parent := Some(here))]
      requires r.started == state.started && r.video == state.video
      requires r.current == state.current && r.running == state.running
      requires r.page == ProgramEntry(newPid) && r.esp0 == StackTop(newPid) && r.cpu == newPid
      modifies this`esp0, this`cpu, this`state, tables, tables.pageDirectory, processTerminal, count, pcb
      ensures Mirrored() && state == r
    {
      SetPage(newPid);
      cpu := newPid;
      StoreProcess(newPid, parent, here);
      state := r;
      FieldsMirror();
    }

    /** `halt` */
    method Halt(here: Context)
      requires Valid() && CanHalt(state) && IsHere(here)
      modifies this`esp0, this`cpu, this`state, tables, tables.pageDirectory, process, processTerminal, count, pcb
      ensures Valid() && state == Processes.Halt(old(state))
    {
      PoppedConsistent(state, process[..]);
      var p := RemoveTop();
      if p == 0 || count[running] == 0 {
        var _ := Execute(true, here);
      } else {
        Return(pcb[p].parent.value);
      }
    }

    /** The processor goes on where a saved stack position says. */
    method Return(to: Context)
      requires Valid() && to.pid < MAX_TASK
      modifies this`cpu, this`state
      ensures Valid() && state == old(state).(cpu := to.pid, clock := old(state).clock + 1)
    {
      cpu := to.pid;
      state := state.(cpu := to.pid, clock := state.clock + 1);
    }

    /** `halt` up to the respawn of a shell. */
    method RemoveTop() returns (p: nat)
      requires Valid() && state.stacks[running] != []
      modifies this`esp0, this`state, tables, tables.pageDirectory, process, processTerminal, count
      ensures Mirrored() && state == Popped(old(state))
      ensures p == Top(old(state.stacks[running])) < MAX_TASK && process[..] == old(process[..])[p := 0]
      ensures count[running] == |Popped(old(state)).stacks[running]|
    {
      ghost var r := Popped(state);
      p := TopPid();
      var parent := pcb[p].parentPid;
      PoppedFields(state, p, parent);
      StackAt(running);
      Leave(p, parent, r);
    }

    /** The top process of the running terminal goes and its parent gets page and TSS;
        `r` is the state this leads to. */
    method Leave(p: nat, parent: nat, ghost r: State)
      requires Mirrored() && running < TERMINALS && count[running] > 0 && p < MAX_TASK && parent < MAX_TASK
      requires r.stacks == TheStacks()[running := Stack(running)[..count[running] - 1]]
      requires r.started == state.started && r.video == state.video && r.pcb == state.pcb
      requires r.current == state.current && r.running == state.running
      requires r.page == ProgramEntry(parent) && r.esp0 == StackTop(parent) && r.cpu == state.cpu
      modifies this`esp0, this`state, tables, tables.pageDirectory, process, processTerminal, count
      ensures Mirrored() && process[..] == old(process[..])[p := 0] && state == r
      ensures count[running] == |r.stacks[running]|
    {
      SetPage(parent);
      RemoveFromRow(p, r.stacks);
      state := r;
      FieldsMirror();
    }

    /** Page and TSS go to process `p`. */
    method SetPage(p: nat)
      requires tables.Valid() && p < MAX_TASK
      modifies this`esp0, tables, tables.pageDirectory
      ensures tables.Valid() && esp0 == StackTop(p)
      ensures Paging.ProgramWord(Paging.Run(tables.log)) == ProgramEntry(p)
      ensures Paging.VideoWord(Paging.Run(tables.log)) == old(Paging.VideoWord(Paging.Run(tables.log)))
    {
      tables.MapProgram(p);
      esp0 := StackTop(p);
    }

    method RemoveFromRow(p: nat, ghost s: Stacks)
      requires Sized() && Clear() && running < TERMINALS && count[running] > 0 && p < MAX_TASK
      requires s == TheStacks()[running := Stack(running)[..count[running] - 1]]
      modifies process, processTerminal, count
      ensures Sized() && Clear() && process[..] == old(process[..])[p := 0] && TheStacks() == s
      ensures count[running] == |s[running]|
    {
      Release(p);
      PopPid(running);
    }

    method Release(p: nat)
      requires p < process.Length
      modifies process
      ensures process[..] == old(process[..])[p := 0]
    {
      process[p] := 0;
    }

    method TopPid() returns (p: nat)
      requires Valid() && state.stacks[running] != []
      ensures p == Top(state.stacks[running]) < MAX_TASK && pcb[p].pid == p
      ensures count[running] > 0
    {
      StackAt(running);
      assert Stack(running) == state.stacks[running];
      p := processTerminal[MAX_TASK * running + count[running] - 1];
      TopIsInUse(state, process[..]);
    }

    /** The processor's stack position at this moment. */
    ghost predicate IsHere(here: Context)
      reads this
    {
      cpu < |state.life| && here == Context(cpu, state.life[cpu], state.clock)
    }

    /** Store the processor's stack position in the PCB of the running process. */
    method SaveCpu(here: Context)
      requires Valid() && IsHere(here)
      modifies this`state, pcb
      ensures Valid() && state == SaveContext(old(state))
    {
      pcb[cpu] := pcb[cpu].(schedule := Some(here));
      state := SaveContext(state);
    }

    /** Terminal `t` counts as started, is on display and runs. */
    method Start(t: nat)
      requires Valid() && t < TERMINALS
      modifies this`current, this`running, this`state, terminalRunning
      ensures Valid() && state == old(state).(started := old(state).started[t := true], current := t, running := t)
    {
      terminalRunning[t] := true;
      current := t;
      running := t;
      state := state.(started := state.started[t := true], current := t, running := t);
    }

    /** The first shell of terminal `t`. */
    method StartShell(t: nat, here: Context)
      requires Valid() && IsHere(here) && t < TERMINALS
      modifies this`current, this`running, this`esp0, this`cpu, this`state, tables, tables.pageDirectory,
               process, processTerminal, count, terminalRunning, pcb
      ensures Valid()
      ensures state == Processes.Execute(
        SaveContext(old(state)).(started := old(state).started[t := true], current := t, running := t), true)
    {
      SaveCpu(here);
      Start(t);
      var _ := Execute(true, here);
    }

    /** `switch_to_terminal`, the part that concerns processes. */
    method SwitchToTerminal(t: nat, here: Context) returns (r: int)
      requires Valid() && IsHere(here)
      modifies this`current, this`running, this`esp0, this`cpu, this`state, tables, tables.pageDirectory,
               process, processTerminal, count, terminalRunning, pcb
      ensures Valid() && state == Switch(old(state), t)
      ensures r == if t < TERMINALS
                      && (t == old(current) || old(state).started[t] || FreePid(old(state.stacks)) < MAX_TASK)
                   then 0 else -1
      ensures r == -1 || t == old(current) ==>
                unchanged(this, process, processTerminal, count, terminalRunning, pcb, tables, tables.pageDirectory)
    {
      if t >= TERMINALS {
        return -1;
      }
      if t == current {
        return 0;
      }
      if !terminalRunning[t] {
        r := Open(t, here);
        return;
      }
      Show(t);
      return 0;
    }

    /** The same for a terminal that does not run. */
    method Open(t: nat, here: Context) returns (r: int)
      requires Valid() && IsHere(here) && t < TERMINALS && t != current && !terminalRunning[t]
      modifies this`current, this`running, this`esp0, this`cpu, this`state, tables, tables.pageDirectory,
               process, processTerminal, count, terminalRunning, pcb
      ensures Valid() && state == Switch(old(state), t)
      ensures r == if FreePid(old(state.stacks)) < MAX_TASK then 0 else -1
      ensures r == -1 ==>
                unchanged(this, process, processTerminal, count, terminalRunning, pcb, tables, tables.pageDirectory)
    {
      var newPid := GetPid();
      if newPid == -1 {
        return -1;
      }
      StartShell(t, here);
      return 0;
    }

    /** Terminal `t` is on display; nothing else changes. */
    method Show(t: nat)
      requires Valid() && t < TERMINALS
      modifies this`current, this`state
      ensures Valid() && state == old(state).(current := t, clock := old(state).clock + 1)
    {
      current := t;
      state := state.(current := t, clock := state.clock + 1);
    }

    /** The terminal whose turn is next: the loop of `pit_handler`. */
    method NextTerminal() returns (n: nat)
      requires Sized() && running < TERMINALS
      ensures n == NextStarted(terminalRunning[..], running)
      ensures terminalRunning[running] ==> FirstFrom(terminalRunning[..], running, n)
    {
      n := running;
      var i := 0;
      while i < TERMINALS
        invariant 0 <= i <= TERMINALS
        invariant i > 0 ==> !terminalRunning[(running + 1) % 3]
        invariant i > 1 ==> !terminalRunning[(running + 2) % 3]
        invariant n == (running + i) % 3
      {
        n := (running + 1 + i) % 3;
        if terminalRunning[n] {
          break;
        }
        i := i + 1;
      }
      if terminalRunning[running] {
        NextIsFirst(terminalRunning[..], running);
      }
    }

    /** Hand the processor to process `p` of terminal `next`. */
    method Resume(next: nat, p: nat)
      requires Valid() && next < TERMINALS && p < MAX_TASK
      requires state.pcb[p].schedule.Some? && state.pcb[p].schedule.value.pid < MAX_TASK
      modifies this`running, this`esp0, this`cpu, this`state, tables, tables.pageDirectory, tables.pageTableVidmem
      ensures Valid() && state == Resumed(old(state), next, p)
    {
      ghost var r := Resumed(state, next, p);
      ResumedConsistent(state, process[..], next, p);
      LoadContext(next, p, r);
    }

    /** `r` is the state this leads to. */
    method LoadContext(next: nat, p: nat, ghost r: State)
      requires Mirrored() && p < MAX_TASK && next < TERMINALS && pcb[p].schedule.Some?
      requires r.stacks == state.stacks && r.started == state.started && r.pcb == state.pcb
      requires r.current == state.current && r.running == next && r.cpu == pcb[p].schedule.value.pid
      requires r.page == ProgramEntry(p) && r.esp0 == StackTop(p)
      requires r.video == if next == current then REAL_VIDEO else BufferVideo(next)
      modifies this`running, this`esp0, this`cpu, this`state, tables, tables.pageDirectory, tables.pageTableVidmem
      ensures Mirrored() && state == r
    {
      tables.MapProgram(p);
      running := next;
      esp0 := StackTop(p);
      tables.MapUserVideoToBuffer(next, current);
      cpu := pcb[p].schedule.value.pid;
      state := r;
      FieldsMirror();
    }

    method TakeTurn(next: nat, p: nat, here: Context)
      requires Valid() && IsHere(here) && next < TERMINALS && p < MAX_TASK
      requires SaveContext(state).pcb[p].schedule.Some? && SaveContext(state).pcb[p].schedule.value.pid < MAX_TASK
      modifies this`running, this`esp0, this`cpu, this`state, tables, tables.pageDirectory, tables.pageTableVidmem, pcb
      ensures Valid() && state == Resumed(SaveContext(old(state)), next, p)
    {
      SaveCpu(here);
      Resume(next, p);
    }

    /** `pit_handler` */
    method PitHandler(here: Context)
      requires Valid() && IsHere(here) && CanTick(state)
      modifies this`running, this`esp0, this`cpu, this`state, tables, tables.pageDirectory, tables.pageTableVidmem, pcb
      ensures Valid() && state == Tick(old(state))
    {
      if count[1] != 0 || count[2] != 0 {
        var next := NextTerminal();
        TurnToTop(next, here);
      }
    }

    method TopOf(t: nat) returns (p: nat)
      requires Mirrored() && t < TERMINALS && state.stacks[t] != []
      ensures p == Top(state.stacks[t])
    {
      StackAt(t);
      p := processTerminal[MAX_TASK * t + count[t] - 1];
    }

    /** The top process of terminal `next`, unless its id is above 5, which never is. */
    method TurnToTop(next: nat, here: Context)
      requires Valid() && IsHere(here) && CanTick(state) && (count[1] != 0 || count[2] != 0)
      requires next == NextStarted(state.started, state.running)
      modifies this`running, this`esp0, this`cpu, this`state, tables, tables.pageDirectory, tables.pageTableVidmem, pcb
      ensures Valid() && state == Tick(old(state))
    {
      StackAt(1);
      StackAt(2);
      TickIsTurn(state, next);
      var p := TopOf(next);
      if p > 5 {
        return;
      }
      TakeTurn(next, p, here);
    }

    /** In every sane state an interrupt pushes onto the running process's own kernel stack,
        from its last word down, with its PCB at the other end. */
    lemma InterruptStack()
      requires Valid() && Sane(state)
      ensures var p := Top(state.stacks[running]);
              p < MAX_TASK && cpu == p && esp0 + 4 == PcbAddress(p) + EIGHT_KB == PcbBase(p) as int + EIGHT_KB
    {
      SaneEsp0(state);
    }

    /** In every sane state the program window is the running process's own frame. */
    lemma ProgramWindow(a: nat)
      requires Valid() && Sane(state) && 0x800_0000 <= a < 0x840_0000
      ensures Paging.Walk(tables.TheTables(), a)
              == Paging.Mapped(EIGHT_MB + Top(state.stacks[running]) * FOUR_MB + (a - 0x800_0000), true, true)
    {
      Paging.RunningProgramIsMapped(tables.TheTables(), Paging.Run(tables.log), state, a);
    }

    /** In the state that a tick has left, the user's video page is the real screen
        exactly if the running terminal is on display, else that terminal's buffer. */
    lemma VideoWindow(k: State, a: nat)
      requires Valid() && Sane(k) && (k.started[1] || k.started[2]) && CanTick(k) && state == Tick(k)
      requires 0xD00_0000 <= a < 0xD00_1000
      ensures Paging.Walk(tables.TheTables(), a)
              == Paging.Mapped(VIDEO + (if running == current then 0 else running + 1) * FOUR_KB + (a - 0xD00_0000),
                               true, true)
    {
      Paging.TickMapsTheTerminal(tables.TheTables(), Paging.Run(tables.log), k, a);
    }
  }
}
