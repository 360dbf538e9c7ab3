/**
 Processes, terminals and the scheduler, as values: three stacks of process ids and
 the facts the kernel keeps beside them.  `Sane` says that all copies agree; it is
 proved to hold after every run of system calls, terminal switches and timer
 ticks, and the exact condition is given for the calls that can break it.
 Kernel.dfy has the kernel's own redundant state, updated in place.
 */
module Processes {
  import opened Common

  const MAX_TASK := 6
  const FOUR_MB := 0x0040_0000
  const EIGHT_MB := 0x0080_0000
  const EIGHT_KB := 0x2000
  const ESP_OFFSET := 4
  const VIDEO := 0xB8000
  const FOUR_KB := 0x1000
  const USER_4MB_PAGE := 0x87    // present, writable, user, 4 MB
  const USER_4KB_PAGE := 0x07    // present, writable, user

  /** `page_directory[32]` for a process: its 4 MB frame, from 8 MB on. */
  function ProgramEntry(pid: nat): nat { pid * FOUR_MB + EIGHT_MB + USER_4MB_PAGE }

  /** `tss.esp0` for a process: the top of its 8 KB kernel stack. */
  function StackTop(pid: nat): int { EIGHT_MB - pid * EIGHT_KB - ESP_OFFSET }

  /** The PCB sits at the bottom of the kernel stack. */
  function PcbAddress(pid: nat): int { EIGHT_MB - (pid + 1) * EIGHT_KB }

  const REAL_VIDEO := VIDEO + USER_4KB_PAGE

  function BufferVideo(t: nat): nat { VIDEO + (t + 1) * FOUR_KB + USER_4KB_PAGE }

  /** A saved stack position: whose kernel stack it lies on, in which life of that
      process id, and when it was saved. */
  datatype Context = Context(pid: nat, life: nat, at: nat)

  /** `schedule` is where the scheduler stopped the process, `parent` where its parent
      was when it executed it. */
  datatype Pcb = Pcb(pid: nat, parentPid: nat, schedule: Option<Context>, parent: Option<Context>)

  /** `cpu` is the process whose kernel stack the processor is on.  `life`, `clock`
      and `leftAt` are bookkeeping of the proof: how often a pid was started, the
      number of steps so far, when a terminal last lost the processor. */
  datatype State = State(
    stacks: seq<seq<nat>>,
    started: seq<bool>,
    current: nat,
    running: nat,
    page: nat,
    esp0: int,
    video: nat,
    cpu: nat,
    pcb: seq<Pcb>,
    life: seq<nat>,
    clock: nat,
    leftAt: seq<nat>
  )

  predicate Shaped(k: State) {
    && |k.stacks| == TERMINALS && |k.started| == TERMINALS && |k.leftAt| == TERMINALS
    && |k.pcb| == MAX_TASK && |k.life| == MAX_TASK
    && k.current < TERMINALS && k.running < TERMINALS && k.cpu < MAX_TASK
    && SmallPids(k.stacks)
    && (forall p :: 0 <= p < MAX_TASK ==> k.pcb[p].parentPid < MAX_TASK)
  }

  type Stacks = s: seq<seq<nat>> | |s| == TERMINALS witness [[], [], []]

  predicate Used(s: Stacks, p: nat) {
    p in s[0] || p in s[1] || p in s[2]
  }

  /** The lowest process id at or above `from` that is on no stack; 6 if none. */
  function FreeFrom(s: Stacks, from: nat): (p: nat)
    requires from <= MAX_TASK
    ensures from <= p <= MAX_TASK
    ensures p < MAX_TASK ==> !Used(s, p)
    ensures forall q :: from <= q < p ==> Used(s, q)
    decreases MAX_TASK - from
  {
    if from == MAX_TASK || !Used(s, from) then from else FreeFrom(s, from + 1)
  }

  function FreePid(s: Stacks): (p: nat)
    ensures p <= MAX_TASK
    ensures p < MAX_TASK ==> !Used(s, p)
  {
    FreeFrom(s, 0)
  }

  function Top(s: seq<nat>): nat
    requires s != []
  {
    s[|s| - 1]
  }

  function Push(s: Stacks, t: nat, p: nat): Stacks
    requires t < TERMINALS
  {
    s[t := s[t] + [p]]
  }

  // ------------------------------------------------------------------ operations

  /** The processor's stack position. */
  function Here(k: State): Context
    requires Shaped(k)
  {
    Context(k.cpu, k.life[k.cpu], k.clock)
  }

  /** `execute`: a file that is missing or no executable, or a full process table,
      changes nothing; otherwise the lowest free process id goes on the stack of
      the terminal on display and takes the processor. */
  function Execute(k: State, loadable: bool): (r: State)
    requires Shaped(k)
  {
    var p := FreePid(k.stacks);
    if !loadable || p == MAX_TASK then k
    else
      var below := k.stacks[k.current];
      var parent := if p != 0 && below != [] then Top(below) else 0;
      k.(
        stacks := Push(k.stacks, k.current, p), page := ProgramEntry(p), esp0 := StackTop(p), cpu := p,
        pcb := k.pcb[p := k.pcb[p].(pid := p, parentPid := parent, parent := Some(Here(k)))],
        life := k.life[p := k.life[p] + 1],
        clock := k.clock + 1)
  }

  /** There is a process to halt and, unless it is respawned, a context to return to. */
  predicate CanHalt(k: State)
    requires Shaped(k)
  {
    && k.stacks[k.running] != []
    && (!Respawns(k) ==> var c := k.pcb[Top(k.stacks[k.running])].parent; c.Some? && c.value.pid < MAX_TASK)
  }

  predicate Respawns(k: State)
    requires Shaped(k) && k.stacks[k.running] != []
  {
    Top(k.stacks[k.running]) == 0 || |k.stacks[k.running]| == 1
  }

  /** `halt` up to the respawn or the return: the processor is still on the kernel stack
      of the halting process. */
  function Popped(k: State): (r: State)
    requires Shaped(k) && k.stacks[k.running] != []
    ensures Shaped(r)
  {
    var stack := k.stacks[k.running];
    var parent := k.pcb[Top(stack)].parentPid;
    k.(stacks := k.stacks[k.running := stack[..|stack| - 1]],
       page := ProgramEntry(parent), esp0 := StackTop(parent))
  }

  /** `halt`: the top process of the running terminal goes, its parent's page is mapped,
      and the processor returns to where the parent executed it; the last process of a
      terminal is replaced by a new shell - on the terminal on display. */
  function Halt(k: State): (r: State)
    requires Shaped(k) && CanHalt(k)
  {
    if Respawns(k) then Execute(Popped(k), true)
    else Popped(k).(cpu := k.pcb[Top(k.stacks[k.running])].parent.value.pid, clock := k.clock + 1)
  }

  /** The context of the process on the processor, as it stands. */
  function SaveContext(k: State): (r: State)
    requires Shaped(k)
    ensures Shaped(r)
  {
    k.(pcb := k.pcb[k.cpu := k.pcb[k.cpu].(schedule := Some(Here(k)))],
       leftAt := k.leftAt[k.running := k.clock])
  }

  /** `switch_to_terminal`: a terminal that already runs only comes on display; a
      new one needs a free process id, takes over the processor and gets a shell. */
  function Switch(k: State, t: nat): (r: State)
    requires Shaped(k)
  {
    if t >= TERMINALS || t == k.current then k
    else if k.started[t] then k.(current := t, clock := k.clock + 1)
    else if FreePid(k.stacks) == MAX_TASK then k
    else Execute(SaveContext(k).(started := k.started[t := true], current := t, running := t), true)
  }

  /** The next started terminal in cyclic order; `r` itself if there is no other. */
  function NextStarted(started: seq<bool>, r: nat): (n: nat)
    requires |started| == TERMINALS && r < TERMINALS
    ensures n < TERMINALS
  {
    if started[(r + 1) % 3] then (r + 1) % 3
    else if started[(r + 2) % 3] then (r + 2) % 3
    else r
  }

  predicate CanTick(k: State)
    requires Shaped(k)
  {
    k.stacks[1] != [] || k.stacks[2] != [] ==>
      && k.stacks[NextStarted(k.started, k.running)] != []
      && (var p := Top(k.stacks[NextStarted(k.started, k.running)]);
          SaveContext(k).pcb[p].schedule.Some? && SaveContext(k).pcb[p].schedule.value.pid < MAX_TASK)
  }

  /** The processor passes to process `p` of terminal `next`. */
  function Resumed(k: State, next: nat, p: nat): State
    requires Shaped(k) && p < MAX_TASK && k.pcb[p].schedule.Some?
  {
    k.(running := next, page := ProgramEntry(p), esp0 := StackTop(p),
       video := if next == k.current then REAL_VIDEO else BufferVideo(next),
       cpu := k.pcb[p].schedule.value.pid,
       clock := k.clock + 1)
  }

  /** `pit_handler`: with a second terminal started, the processor passes to the
      next terminal's top process - to whatever context its PCB holds. */
  function Tick(k: State): (r: State)
    requires Shaped(k) && CanTick(k)
    ensures Shaped(r)
  {
    if k.stacks[1] == [] && k.stacks[2] == [] then k
    else
      var next := NextStarted(k.started, k.running);
      Resumed(SaveContext(k), next, Top(k.stacks[next]))
  }

  /** The state in which `init_terminal` starts the first shell. */
  function Boot(k: State): (r: State)
    requires Shaped(k)
  {
    Execute(k.(stacks := [[], [], []], started := [true, false, false], current := 0, running := 0), true)
  }

  // ------------------------------------------------------------------- agreement

  /** No process id twice, on one stack or on two. */
  predicate Distinct(s: Stacks) {
    forall t, i, u, j ::
      (&& 0 <= t < TERMINALS && 0 <= i < |s[t]|
       && 0 <= u < TERMINALS && 0 <= j < |s[u]|
       && s[t][i] == s[u][j]) ==> t == u && i == j
  }

  predicate SmallPids(s: Stacks) {
    forall t, j :: 0 <= t < TERMINALS && 0 <= j < |s[t]| ==> s[t][j] < MAX_TASK
  }

  /** Each PCB carries its own id and, above the root of a terminal, the id of the
      process just below. */
  predicate ParentsBelow(s: Stacks, pcb: seq<Pcb>)
    requires SmallPids(s) && |pcb| == MAX_TASK
  {
    forall t, j :: 0 <= t < TERMINALS && 0 <= j < |s[t]| ==> Linked(s[t], j, pcb)
  }

  predicate Linked(stack: seq<nat>, j: nat, pcb: seq<Pcb>)
    requires j < |stack| && stack[j] < |pcb|
  {
    pcb[stack[j]].pid == stack[j]
    && pcb[stack[j]].parentPid == if j > 0 then stack[j - 1] else 0
  }

  /** The program page, the TSS and the processor all belong to `p`. */
  predicate Owns(k: State, p: nat) {
    k.page == ProgramEntry(p) && k.esp0 == StackTop(p) && k.cpu == p
  }

  /** A waiting terminal can be resumed where it stopped: its top process holds a
      context of its own present life, saved when the terminal lost the processor. */
  predicate Resumable(k: State, t: nat)
    requires Shaped(k) && t < TERMINALS
  {
    k.stacks[t] != [] ==>
      var p := Top(k.stacks[t]);
      k.pcb[p].schedule == Some(Context(p, k.life[p], k.leftAt[t]))
  }

  /** The stacks and the parent links; process 0 is the root of terminal 0. */
  predicate Structured(k: State) {
    && Shaped(k) && Distinct(k.stacks) && ParentsBelow(k.stacks, k.pcb)
    && (if k.stacks[0] != [] then k.stacks[0][0] == 0 else k.current == 0 && !Used(k.stacks, 0))
  }

  predicate StartedIffNonEmpty(k: State)
    requires Shaped(k)
  {
    forall t :: 0 <= t < TERMINALS ==> (k.started[t] <==> k.stacks[t] != [])
  }

  predicate WaitingResumable(k: State)
    requires Shaped(k)
  {
    forall t :: 0 <= t < TERMINALS && t != k.running ==> Resumable(k, t)
  }

  /** Above the root of a terminal, a process was executed by the present life of the
      process just below, from a place on that one's kernel stack. */
  predicate ReturnsBelow(stack: seq<nat>, j: nat, pcb: seq<Pcb>, life: seq<nat>)
    requires 0 < j < |stack| && stack[j] < |pcb| && stack[j - 1] < |life|
  {
    var c := pcb[stack[j]].parent;
    c.Some? && c.value.pid == stack[j - 1] && c.value.life == life[stack[j - 1]]
  }

  predicate Returnable(k: State)
    requires Shaped(k)
  {
    forall t, j :: 0 <= t < TERMINALS && 0 < j < |k.stacks[t]| ==> ReturnsBelow(k.stacks[t], j, k.pcb, k.life)
  }

  /** All copies agree. */
  predicate Sane(k: State) {
    && Structured(k) && StartedIffNonEmpty(k) && WaitingResumable(k) && Returnable(k)
    && k.started[0] && k.started[k.current] && k.started[k.running]
    && Owns(k, Top(k.stacks[k.running]))
  }

  lemma OnStackIsUsed(s: Stacks, t: nat, j: nat)
    requires t < TERMINALS && j < |s[t]|
    ensures Used(s, s[t][j])
  {
    assert s[t][j] in s[t];
  }

  predicate Absent(s: Stacks, p: nat) {
    forall t, j :: 0 <= t < TERMINALS && 0 <= j < |s[t]| ==> s[t][j] != p
  }

  lemma AbsentIffUnused(s: Stacks, p: nat)
    ensures Absent(s, p) <==> !Used(s, p)
  {
    forall t, j | 0 <= t < TERMINALS && 0 <= j < |s[t]|
      ensures Used(s, s[t][j])
    {
      OnStackIsUsed(s, t, j);
    }
  }

  lemma PushDistinct(s: Stacks, t: nat, p: nat)
    requires Distinct(s) && t < TERMINALS && Absent(s, p)
    ensures Distinct(Push(s, t, p))
  {
  }

  lemma PushParents(s: Stacks, pcb: seq<Pcb>, t: nat, p: nat, q: Pcb)
    requires SmallPids(s) && |pcb| == MAX_TASK && ParentsBelow(s, pcb)
    requires t < TERMINALS && p < MAX_TASK && Absent(s, p)
    requires q.pid == p && q.parentPid == if s[t] != [] then Top(s[t]) else 0
    ensures SmallPids(Push(s, t, p)) && ParentsBelow(Push(s, t, p), pcb[p := q])
  {
    var s', pcb' := Push(s, t, p), pcb[p := q];
    forall u, j | 0 <= u < TERMINALS && 0 <= j < |s'[u]|
      ensures s'[u][j] < MAX_TASK && Linked(s'[u], j, pcb')
    {
      if j < |s[u]| {
        assert Linked(s[u], j, pcb);
      }
    }
  }

  /** The new process on top of the stack of the terminal on display. */
  lemma ExecuteStructured(k: State)
    requires Structured(k) && FreePid(k.stacks) < MAX_TASK
    ensures var p, r := FreePid(k.stacks), Execute(k, true);
            && Structured(r) && Owns(r, p) && Absent(k.stacks, p)
            && r.stacks == Push(k.stacks, k.current, p)
            && r.pcb == k.pcb[p := r.pcb[p]] && r.life == k.life[p := r.life[p]]
  {
    var p, r := FreePid(k.stacks), Execute(k, true);
    AbsentIffUnused(k.stacks, p);
    if k.stacks[0] != [] {
      OnStackIsUsed(k.stacks, 0, 0);
      assert r.stacks[0][0] == 0;
    }
    PushDistinct(k.stacks, k.current, p);
    PushParents(k.stacks, k.pcb, k.current, p, r.pcb[p]);
  }

  lemma NoneUsed(s: Stacks)
    requires s[0] == [] && s[1] == [] && s[2] == []
    ensures FreePid(s) == 0 && Push(s, 0, 0) == [[0], [], []]
    ensures Distinct(s) && SmallPids(s)
  {
    assert s[0] + [0] == [0];
  }

  /** A state that only lacks the first process of the terminal that runs and is on
      display. */
  predicate AwaitsShell(q: State) {
    && Structured(q) && WaitingResumable(q) && Returnable(q)
    && q.running == q.current && q.stacks[q.running] == [] && q.started[0] && q.started[q.running]
    && (forall t :: 0 <= t < TERMINALS && t != q.running ==> (q.started[t] <==> q.stacks[t] != []))
    && FreePid(q.stacks) < MAX_TASK
  }

  lemma RespawnIsSane(q: State)
    requires AwaitsShell(q)
    ensures Sane(Execute(q, true))
  {
    var r := Execute(q, true);
    ExecuteStructured(q);
    assert r.stacks[r.running] == [FreePid(q.stacks)];
    ResumableKept(q, r);
    ExecuteReturnable(q);
  }

  lemma EmptyAwaitsShell(q: State)
    requires Shaped(q) && q.stacks[0] == [] && q.stacks[1] == [] && q.stacks[2] == []
    requires q.started[0] && !q.started[1] && !q.started[2] && q.current == 0 && q.running == 0
    ensures AwaitsShell(q) && FreePid(q.stacks) == 0
  {
    NoneUsed(q.stacks);
  }

  lemma BootIsSane(k: State)
    requires Shaped(k)
    ensures Sane(Boot(k)) && Boot(k).stacks == [[0], [], []]
  {
    var q := k.(stacks := [[], [], []], started := [true, false, false], current := 0, running := 0);
    NoneUsed(q.stacks);
    EmptyAwaitsShell(q);
    RespawnIsSane(q);
    ExecuteStructured(q);
  }

  lemma ResumableKept(k: State, r: State)
    requires Shaped(k) && Shaped(r) && WaitingResumable(k)
    requires r.running == k.running && r.leftAt == k.leftAt
    requires forall t :: 0 <= t < TERMINALS && t != k.running ==>
               r.stacks[t] == k.stacks[t]
               && (k.stacks[t] != [] ==> var p := Top(k.stacks[t]);
                    r.pcb[p].schedule == k.pcb[p].schedule && r.life[p] == k.life[p])
    ensures WaitingResumable(r)
  {
    forall t | 0 <= t < TERMINALS && t != r.running
      ensures Resumable(r, t)
    {
      assert Resumable(k, t);
    }
  }

  lemma ReturnableKept(k: State, r: State)
    requires Shaped(k) && Shaped(r) && Returnable(k) && r.stacks == k.stacks && r.life == k.life
    requires forall p :: 0 <= p < MAX_TASK ==> r.pcb[p].parent == k.pcb[p].parent
    ensures Returnable(r)
  {
    forall t, j | 0 <= t < TERMINALS && 0 < j < |r.stacks[t]|
      ensures ReturnsBelow(r.stacks[t], j, r.pcb, r.life)
    {
      assert ReturnsBelow(k.stacks[t], j, k.pcb, k.life);
    }
  }

  /** Executing a process from the top process of the terminal, or on an empty one. */
  lemma ExecuteReturnable(k: State)
    requires Structured(k) && Returnable(k) && FreePid(k.stacks) < MAX_TASK
    requires k.stacks[k.current] != [] ==> k.cpu == Top(k.stacks[k.current])
    ensures Returnable(Execute(k, true))
  {
    var r := Execute(k, true);
    ExecuteStructured(k);
    forall t, j | 0 <= t < TERMINALS && 0 < j < |r.stacks[t]|
      ensures ReturnsBelow(r.stacks[t], j, r.pcb, r.life)
    {
      if j < |k.stacks[t]| {
        assert ReturnsBelow(k.stacks[t], j, k.pcb, k.life);
      }
    }
  }

  lemma PoppedReturnable(k: State)
    requires Shaped(k) && Returnable(k) && k.stacks[k.running] != []
    ensures Returnable(Popped(k))
  {
    var r := Popped(k);
    forall t, j | 0 <= t < TERMINALS && 0 < j < |r.stacks[t]|
      ensures ReturnsBelow(r.stacks[t], j, r.pcb, r.life)
    {
      assert ReturnsBelow(k.stacks[t], j, k.pcb, k.life);
    }
  }

  lemma SaneCanHalt(k: State)
    requires Sane(k)
    ensures CanHalt(k)
    ensures Respawns(k) <==> |k.stacks[k.running]| == 1
  {
    var stack := k.stacks[k.running];
    if |stack| > 1 {
      assert ReturnsBelow(stack, |stack| - 1, k.pcb, k.life);
      assert Linked(stack, |stack| - 1, k.pcb);
    }
  }

  /** `execute` keeps the copies in agreement exactly when it fails or the terminal
      that runs is the one on display. */
  lemma ExecuteKeepsSaneIff(k: State, loadable: bool)
    requires Sane(k)
    ensures Sane(Execute(k, loadable))
            <==> !loadable || FreePid(k.stacks) == MAX_TASK || k.running == k.current
  {
    if loadable && FreePid(k.stacks) < MAX_TASK {
      if k.running != k.current {
        ExecuteInBackground(k);
      } else {
        ExecuteOnDisplay(k);
      }
    }
  }

  lemma ExecuteInBackground(k: State)
    requires Sane(k) && FreePid(k.stacks) < MAX_TASK && k.running != k.current
    ensures !Sane(Execute(k, true))
  {
    var p, r := FreePid(k.stacks), Execute(k, true);
    ExecuteStructured(k);
    assert r.stacks[k.running] == k.stacks[k.running];
    assert r.stacks[k.running][|k.stacks[k.running]| - 1] != p;
  }

  lemma ExecuteOnDisplay(k: State)
    requires Sane(k) && FreePid(k.stacks) < MAX_TASK && k.running == k.current
    ensures Sane(Execute(k, true))
  {
    var r := Execute(k, true);
    ExecuteStructured(k);
    assert Top(r.stacks[k.running]) == FreePid(k.stacks);
    ResumableKept(k, r);
    ExecuteReturnable(k);
  }

  lemma PopDistinct(s: Stacks, t: nat)
    requires Distinct(s) && t < TERMINALS && s[t] != []
    ensures Distinct(s[t := s[t][..|s[t]| - 1]])
    ensures Absent(s[t := s[t][..|s[t]| - 1]], Top(s[t]))
  {
  }

  lemma PopParents(s: Stacks, pcb: seq<Pcb>, t: nat)
    requires SmallPids(s) && |pcb| == MAX_TASK && ParentsBelow(s, pcb)
    requires t < TERMINALS && s[t] != []
    ensures SmallPids(s[t := s[t][..|s[t]| - 1]]) && ParentsBelow(s[t := s[t][..|s[t]| - 1]], pcb)
  {
    var s' := s[t := s[t][..|s[t]| - 1]];
    forall u, j | 0 <= u < TERMINALS && 0 <= j < |s'[u]|
      ensures s'[u][j] < MAX_TASK && Linked(s'[u], j, pcb)
    {
      assert Linked(s[u], j, pcb);
    }
  }

  lemma PoppedStructured(k: State)
    requires Sane(k)
    ensures var r, p := Popped(k), Top(k.stacks[k.running]);
            && (p == 0 <==> k.running == 0 && |k.stacks[0]| == 1)
            && Absent(r.stacks, p)
            && Distinct(r.stacks) && ParentsBelow(r.stacks, r.pcb)
            && (r.stacks[0] != [] ==> r.stacks[0][0] == 0)
            && var parent := if r.stacks[k.running] == [] then 0 else Top(r.stacks[k.running]);
               r.page == ProgramEntry(parent) && r.esp0 == StackTop(parent)
  {
    PopDistinct(k.stacks, k.running);
    PopParents(k.stacks, k.pcb, k.running);
    var stack := k.stacks[k.running];
    assert Linked(stack, |stack| - 1, k.pcb);
  }

  /** Process `p` is back in `q`, at the place in its present life where `q` executed it. */
  predicate BackIn(k: State, r: State, p: nat, q: nat) {
    && p < |k.pcb| && q < |k.life| == |r.life| && r.cpu == q
    && k.pcb[p].parent.Some? && k.pcb[p].parent.value.pid == q
    && k.pcb[p].parent.value.life == k.life[q] == r.life[q]
  }

  /** Halting above a root returns to the process just below, in its present life, where
      it executed the process that halts. */
  lemma HaltReturnsBelow(k: State)
    requires Sane(k) && |k.stacks[k.running]| > 1
    ensures CanHalt(k)
    ensures var stack := k.stacks[k.running];
            && BackIn(k, Halt(k), stack[|stack| - 1], stack[|stack| - 2])
            && Halt(k).stacks == k.stacks[k.running := stack[..|stack| - 1]]
  {
    SaneCanHalt(k);
    var stack := k.stacks[k.running];
    assert ReturnsBelow(stack, |stack| - 1, k.pcb, k.life);
  }

  lemma HaltAboveRoot(k: State)
    requires Sane(k) && |k.stacks[k.running]| > 1
    ensures CanHalt(k) && Sane(Halt(k))
  {
    HaltReturnsBelow(k);
    SaneCanHalt(k);
    PoppedStructured(k);
    PoppedReturnable(k);
    var r := Halt(k);
    ResumableKept(k, r);
    ReturnableKept(Popped(k), r);
  }

  lemma HaltRootInBackground(k: State)
    requires Sane(k) && |k.stacks[k.running]| == 1 && k.running != k.current
    ensures CanHalt(k) && !Sane(Halt(k))
  {
    SaneCanHalt(k);
    assert Popped(k).stacks[k.running] == [];
    assert Halt(k).stacks[k.running] == [] && Halt(k).started[k.running];
  }

  lemma HaltRootOnDisplay(k: State)
    requires Sane(k) && |k.stacks[k.running]| == 1 && k.running == k.current
    ensures CanHalt(k) && Sane(Halt(k))
  {
    PoppedAwaitsShell(k);
    RespawnIsSane(Popped(k));
  }

  lemma PoppedAwaitsShell(k: State)
    requires Sane(k) && |k.stacks[k.running]| == 1 && k.running == k.current
    ensures AwaitsShell(Popped(k)) && CanHalt(k) && Halt(k) == Execute(Popped(k), true)
  {
    SaneCanHalt(k);
    PoppedReturnable(k);
    PoppedStructured(k);
    var q, p := Popped(k), Top(k.stacks[k.running]);
    AbsentIffUnused(q.stacks, p);
    FreeBelow(q.stacks, p);
    ResumableKept(k, q);
  }

  lemma FreeBelow(s: Stacks, p: nat)
    requires p < MAX_TASK && !Used(s, p)
    ensures FreePid(s) <= p
  {
  }

  /** `halt` keeps the copies in agreement exactly when a process remains on the
      terminal or the terminal that runs is the one on display. */
  lemma HaltKeepsSaneIff(k: State)
    requires Sane(k)
    ensures CanHalt(k) && (Sane(Halt(k)) <==> |k.stacks[k.running]| > 1 || k.running == k.current)
  {
    if |k.stacks[k.running]| > 1 {
      HaltAboveRoot(k);
    } else if k.running != k.current {
      HaltRootInBackground(k);
    } else {
      HaltRootOnDisplay(k);
    }
  }

  /** After boot, show terminal 1 - its first shell runs - and terminal 0 again. */
  function ShownAndBack(k: State): State
    requires Shaped(k)
  {
    Switch(Switch(Boot(k), 1), 0)
  }

  /** The state is sane, terminal 1 runs and terminal 0 is on display. */
  lemma ShowAndReturn(k: State)
    requires Shaped(k)
    ensures var s := ShownAndBack(k);
            && Sane(s) && s.running == 1 && s.current == 0
            && |s.stacks[1]| == 1 && s.stacks[0] == [0] && s.stacks[2] == []
  {
    var boot := Boot(k);
    BootIsSane(k);
    FreeBelow(boot.stacks, 1);
    SwitchKeepsSane(boot, 1);
    SwitchKeepsSane(Switch(boot, 1), 0);
  }

  /** So the other halves of `ExecuteKeepsSaneIff` and `HaltKeepsSaneIff` are met: in that
      state the shell that executes a program, or halts, breaks the agreement. */
  lemma ShowAndReturnBreaks(k: State)
    requires Shaped(k)
    ensures Sane(ShownAndBack(k)) && CanHalt(ShownAndBack(k))
    ensures !Sane(Execute(ShownAndBack(k), true)) && !Sane(Halt(ShownAndBack(k)))
  {
    var s := ShownAndBack(k);
    ShowAndReturn(k);
    FreeBelow(s.stacks, if s.stacks[1][0] == 1 then 2 else 1);
    ExecuteKeepsSaneIff(s, true);
    HaltKeepsSaneIff(s);
  }

  /** A terminal that loses the processor can be resumed. */
  lemma SavedIsResumable(k: State)
    requires Sane(k)
    ensures var r := SaveContext(k);
            && Structured(r) && StartedIffNonEmpty(r)
            && forall t :: 0 <= t < TERMINALS ==> Resumable(r, t)
  {
    var r := SaveContext(k);
    forall t, j | 0 <= t < TERMINALS && 0 <= j < |r.stacks[t]|
      ensures Linked(r.stacks[t], j, r.pcb)
    {
      assert Linked(k.stacks[t], j, k.pcb);
    }
    forall t | 0 <= t < TERMINALS
      ensures Resumable(r, t)
    {
      assert t != k.running ==> Resumable(k, t);
    }
  }

  /** A terminal that does not run takes over the processor and gets its first shell. */
  lemma OpenKeepsSane(k: State, t: nat)
    requires Sane(k) && t < TERMINALS && !k.started[t] && FreePid(k.stacks) < MAX_TASK
    ensures Sane(Switch(k, t))
  {
    SavedIsResumable(k);
    var q := SaveContext(k).(started := k.started[t := true], current := t, running := t);
    ReturnableKept(k, q);
    assert Structured(q);
    OpenedAwaitsShell(SaveContext(k), q, t);
    RespawnIsSane(q);
  }

  lemma OpenedAwaitsShell(s: State, q: State, t: nat)
    requires Shaped(s) && Structured(q) && Returnable(q) && StartedIffNonEmpty(s) && s.started[0]
    requires forall u :: 0 <= u < TERMINALS ==> Resumable(s, u)
    requires t < TERMINALS && !s.started[t] && FreePid(s.stacks) < MAX_TASK
    requires q == s.(started := s.started[t := true], current := t, running := t)
    ensures AwaitsShell(q)
  {
    forall u | 0 <= u < TERMINALS && u != t
      ensures Resumable(q, u)
    {
      assert Resumable(s, u);
    }
  }

  lemma SwitchKeepsSane(k: State, t: nat)
    requires Sane(k)
    ensures Sane(Switch(k, t))
  {
    if t < TERMINALS && t != k.current {
      if k.started[t] {
        ResumableKept(k, Switch(k, t));
        ReturnableKept(k, Switch(k, t));
      } else if FreePid(k.stacks) < MAX_TASK {
        OpenKeepsSane(k, t);
      }
    }
  }

  lemma TickKeepsSane(k: State)
    requires Sane(k)
    ensures CanTick(k) && Sane(Tick(k))
  {
    SavedIsResumable(k);
    var next := NextStarted(k.started, k.running);
    assert Resumable(SaveContext(k), next);
    if k.stacks[1] != [] || k.stacks[2] != [] {
      ReturnableKept(k, Tick(k));
      forall u | 0 <= u < TERMINALS && u != next
        ensures Resumable(Tick(k), u)
      {
        assert Resumable(SaveContext(k), u);
      }
    }
  }

  // ------------------------------------------------------- what each step leaves alone

  /** `p` is the lowest process id on no stack. */
  predicate LowestFree(s: Stacks, p: nat) {
    p < MAX_TASK && !Used(s, p) && forall q :: 0 <= q < p ==> Used(s, q)
  }

  lemma LowestFreeIsFreePid(s: Stacks, p: nat)
    requires LowestFree(s, p)
    ensures FreePid(s) == p
  {
  }

  /** No terminal has started, come on display or got the processor. */
  predicate SameTerminals(k: State, r: State) {
    r.started == k.started && r.current == k.current && r.running == k.running
  }

  /** A call of `execute` that fails changes nothing at all. */
  lemma FailedExecuteIsHarmless(k: State, loadable: bool)
    requires Shaped(k) && (!loadable || forall p :: 0 <= p < MAX_TASK ==> Used(k.stacks, p))
    ensures Execute(k, loadable) == k
  {
  }

  /** One that succeeds puts the lowest free id on top of the terminal on display. */
  lemma ExecuteStarts(k: State, p: nat)
    requires Shaped(k) && LowestFree(k.stacks, p)
    ensures var r, below := Execute(k, true), k.stacks[k.current];
            && r.stacks[k.current] == below + [p]
            && (forall t :: 0 <= t < TERMINALS && t != k.current ==> r.stacks[t] == k.stacks[t])
            && Owns(r, p) && SameTerminals(k, r) && r.video == k.video && r.leftAt == k.leftAt
            && (forall q :: 0 <= q < MAX_TASK && q != p ==> r.pcb[q] == k.pcb[q] && r.life[q] == k.life[q])
            && r.pcb[p].pid == p && r.pcb[p].schedule == k.pcb[p].schedule
            && r.pcb[p].parent == Some(Context(k.cpu, k.life[k.cpu], k.clock))
            && r.pcb[p].parentPid == (if p > 0 && |below| > 0 then below[|below| - 1] else 0)
            && r.life[p] == k.life[p] + 1
  {
    LowestFreeIsFreePid(k.stacks, p);
  }

  /** Above a root, `halt` takes the process away and touches nothing else but page and
      TSS, which go to the process below. */
  lemma HaltPopsOnlyTheTop(k: State)
    requires Sane(k) && |k.stacks[k.running]| > 1
    ensures CanHalt(k)
    ensures var r, stack := Halt(k), k.stacks[k.running];
            && r.stacks[k.running] == stack[..|stack| - 1]
            && (forall t :: 0 <= t < TERMINALS && t != k.running ==> r.stacks[t] == k.stacks[t])
            && Owns(r, stack[|stack| - 2]) && SameTerminals(k, r)
            && r.video == k.video && r.pcb == k.pcb && r.life == k.life && r.leftAt == k.leftAt
  {
    HaltReturnsBelow(k);
    SaneCanHalt(k);
    PoppedStructured(k);
  }

  /** The root of the terminal on display is replaced by a shell with the lowest id then
      free, which has no parent on that terminal. */
  lemma HaltReplacesRoot(k: State, p: nat)
    requires Sane(k) && |k.stacks[k.running]| == 1 && k.running == k.current
    requires LowestFree(k.stacks[k.running := []], p)
    ensures CanHalt(k)
    ensures var r := Halt(k);
            && r.stacks == k.stacks[k.running := [p]]
            && Owns(r, p) && SameTerminals(k, r) && r.video == k.video
            && (forall q :: 0 <= q < MAX_TASK && q != p ==> r.pcb[q] == k.pcb[q])
            && r.pcb[p].pid == p && r.pcb[p].parentPid == 0
  {
    PoppedAwaitsShell(k);
    var q := Popped(k);
    assert k.stacks[k.running][..0] == [];
    assert q.stacks == k.stacks[k.running := []];
    ExecuteStarts(q, p);
    assert [] + [p] == [p];
    assert Halt(k).stacks == k.stacks[k.running := [p]];
  }

  /** A switch that is refused, or to the terminal on display, changes nothing. */
  lemma RefusedSwitchIsHarmless(k: State, t: nat)
    requires Shaped(k)
    requires t >= TERMINALS || t == k.current
             || (!k.started[t] && forall p :: 0 <= p < MAX_TASK ==> Used(k.stacks, p))
    ensures Switch(k, t) == k
  {
  }

  /** Showing a terminal that runs changes what is on display and nothing else. */
  lemma ShowOnlyShows(k: State, t: nat)
    requires Shaped(k) && t < TERMINALS && t != k.current && k.started[t]
    ensures Switch(k, t) == k.(current := t, clock := k.clock + 1)
  {
  }

  /** Showing another one starts a shell there, which runs at once; the process that had
      the processor can go on where it stopped. */
  lemma OpenStartsShell(k: State, t: nat, p: nat)
    requires Sane(k) && t < TERMINALS && !k.started[t] && LowestFree(k.stacks, p)
    ensures var r := Switch(k, t);
            && r.stacks == k.stacks[t := [p]] && r.started == k.started[t := true]
            && r.current == t && r.running == t && Owns(r, p) && r.video == k.video
            && r.pcb[k.cpu] == k.pcb[k.cpu].(schedule := Some(Context(k.cpu, k.life[k.cpu], k.clock)))
            && (forall q :: 0 <= q < MAX_TASK && q != p && q != k.cpu ==> r.pcb[q] == k.pcb[q])
            && r.pcb[p].pid == p && r.pcb[p].parentPid == 0
  {
    OnStackIsUsed(k.stacks, k.running, |k.stacks[k.running]| - 1);
    LowestFreeIsFreePid(k.stacks, p);
    var q := SaveContext(k).(started := k.started[t := true], current := t, running := t);
    ExecuteStarts(q, p);
    assert k.stacks[t] == [] && [] + [p] == [p];
    assert Switch(k, t) == Execute(q, true);
    assert Switch(k, t).stacks == k.stacks[t := [p]];
  }

  /** With one terminal started a tick changes nothing. */
  lemma TickOfOneTerminal(k: State)
    requires Sane(k) && !k.started[1] && !k.started[2]
    ensures CanTick(k) && Tick(k) == k
  {
  }

  /** Otherwise it hands on the processor and saves the context of the process that had
      it; processes, parents and what is on display stay as they are. */
  lemma TickOnlyTurns(k: State)
    requires Sane(k) && (k.started[1] || k.started[2])
    ensures CanTick(k)
    ensures var r := Tick(k);
            && r.stacks == k.stacks && r.started == k.started && r.current == k.current && r.life == k.life
            && r.pcb[k.cpu] == k.pcb[k.cpu].(schedule := Some(Context(k.cpu, k.life[k.cpu], k.clock)))
            && (forall q :: 0 <= q < MAX_TASK && q != k.cpu ==> r.pcb[q] == k.pcb[q])
            && r.leftAt == k.leftAt[k.running := k.clock]
  {
    NextWaits(k);
    TickKeepsSane(k);
    TickIsTurn(k, NextStarted(k.started, k.running));
  }

  // ------------------------------------------------------------------ whole runs

  datatype Op = OpExecute(loadable: bool) | OpHalt | OpSwitch(t: nat) | OpTick

  function Step(k: State, op: Op): (r: State)
    requires Sane(k)
  {
    match op
    case OpExecute(loadable) => Execute(k, loadable)
    case OpHalt => SaneCanHalt(k); Halt(k)
    case OpSwitch(t) => Switch(k, t)
    case OpTick => TickKeepsSane(k); Tick(k)
  }

  /** A program starts another one, or leaves the last place of its terminal, only
      while its terminal is on display. */
  predicate Permitted(k: State, op: Op)
    requires Sane(k)
  {
    match op
    case OpExecute(loadable) => !loadable || FreePid(k.stacks) == MAX_TASK || k.running == k.current
    case OpHalt => |k.stacks[k.running]| > 1 || k.running == k.current
    case _ => true
  }

  lemma StepKeepsSaneIff(k: State, op: Op)
    requires Sane(k)
    ensures Sane(Step(k, op)) <==> Permitted(k, op)
  {
    match op
    case OpExecute(loadable) => ExecuteKeepsSaneIff(k, loadable);
    case OpHalt => HaltKeepsSaneIff(k);
    case OpSwitch(t) => SwitchKeepsSane(k, t);
    case OpTick => TickKeepsSane(k);
  }

  /** Every operation of the run is permitted when its turn comes. */
  predicate AllPermitted(k: State, ops: seq<Op>)
    requires Sane(k)
    decreases |ops|
  {
    ops != [] ==>
      && Permitted(k, ops[0])
      && (StepKeepsSaneIff(k, ops[0]); AllPermitted(Step(k, ops[0]), ops[1..]))
  }

  /** The copies agree after every operation of the run. */
  predicate StaysSane(k: State, ops: seq<Op>)
    requires Sane(k)
    decreases |ops|
  {
    ops != [] ==> Sane(Step(k, ops[0])) && StaysSane(Step(k, ops[0]), ops[1..])
  }

  /** In every reachable state all copies agree, and the runs that keep them in
      agreement are exactly the permitted ones. */
  lemma {:induction false} RunsStaySaneIff(k: State, ops: seq<Op>)
    requires Sane(k)
    ensures StaysSane(k, ops) <==> AllPermitted(k, ops)
    decreases |ops|
  {
    if ops != [] {
      StepKeepsSaneIff(k, ops[0]);
      if Permitted(k, ops[0]) {
        RunsStaySaneIff(Step(k, ops[0]), ops[1..]);
      }
    }
  }

  function Run(k: State, ops: seq<Op>): (r: State)
    requires Sane(k) && AllPermitted(k, ops)
    ensures Sane(r)
    decreases |ops|
  {
    if ops == [] then k
    else
      StepKeepsSaneIff(k, ops[0]);
      Run(Step(k, ops[0]), ops[1..])
  }

  // -------------------------------------------------------- counting processes

  function Flat(s: Stacks): seq<nat> { s[0] + s[1] + s[2] }

  function UsedPids(s: Stacks): set<nat> {
    set p | 0 <= p < MAX_TASK && Used(s, p)
  }

  function Members(s: seq<nat>): set<nat> { set x | x in s }

  lemma {:induction false} DistinctMembers(s: seq<nat>)
    requires forall i, j :: 0 <= i < j < |s| ==> s[i] != s[j]
    ensures |Members(s)| == |s|
  {
    if s != [] {
      var init, last := s[..|s| - 1], s[|s| - 1];
      DistinctMembers(init);
      assert last !in init;
      assert Members(s) == Members(init) + {last} by {
        forall x | x in s
          ensures x in Members(init) + {last}
        {
          var i :| 0 <= i < |s| && s[i] == x;
          if i < |init| { assert init[i] == x; }
        }
      }
    }
  }

  lemma FlatDistinct(s: Stacks)
    requires Distinct(s)
    ensures forall i, j :: 0 <= i < j < |Flat(s)| ==> Flat(s)[i] != Flat(s)[j]
  {
    var a, b := |s[0]|, |s[0]| + |s[1]|;
    forall i, j | 0 <= i < j < |Flat(s)|
      ensures Flat(s)[i] != Flat(s)[j]
    {
      var (t, x) := if i < a then (0, i) else if i < b then (1, i - a) else (2, i - b);
      var (u, y) := if j < a then (0, j) else if j < b then (1, j - a) else (2, j - b);
      assert Flat(s)[i] == s[t][x] && Flat(s)[j] == s[u][y];
    }
  }

  /** The counts of the three terminals add up to the number of processes in use,
      which is never above six - and below six while a process id is free. */
  lemma CountsAddUp(s: Stacks)
    requires Distinct(s) && SmallPids(s)
    ensures |s[0]| + |s[1]| + |s[2]| == |UsedPids(s)| <= MAX_TASK
    ensures FreePid(s) < MAX_TASK ==> |UsedPids(s)| < MAX_TASK
  {
    FlatDistinct(s);
    DistinctMembers(Flat(s));
    assert Members(Flat(s)) == UsedPids(s) by {
      forall t, j | 0 <= t < TERMINALS && 0 <= j < |s[t]|
        ensures s[t][j] in UsedPids(s)
      {
        OnStackIsUsed(s, t, j);
      }
    }
    FewPids(UsedPids(s), FreePid(s));
  }

  lemma RoomOnEveryStack(s: Stacks, t: nat)
    requires Distinct(s) && SmallPids(s) && FreePid(s) < MAX_TASK && t < TERMINALS
    ensures |s[t]| < MAX_TASK
  {
    CountsAddUp(s);
  }

  lemma FewPids(a: set<nat>, p: nat)
    requires forall q :: q in a ==> q < MAX_TASK && q != p
    ensures |a| <= MAX_TASK && (p < MAX_TASK ==> |a| < MAX_TASK)
  {
    var all := {0, 1, 2, 3, 4, 5};
    SubsetSize(a, all);
    if p < MAX_TASK {
      SubsetSize(a, all - {p});
    }
  }

  lemma {:induction false} SubsetSize(a: set<nat>, b: set<nat>)
    requires a <= b
    ensures |a| <= |b|
  {
    if a != {} {
      var x :| x in a;
      SubsetSize(a - {x}, b - {x});
    }
  }

  // ------------------------------------------------------------------ scheduling

  /** A timer tick resumes the next terminal's top process, in its present life, at
      the very point where it lost the processor - `execute` never prepares a
      context, yet none that is stale or missing is ever loaded - and shows its
      output on the real screen exactly if its terminal is on display. */
  lemma TickResumes(k: State)
    requires Sane(k) && (k.started[1] || k.started[2])
    ensures var next := NextStarted(k.started, k.running);
            && next != k.running && k.started[next]
            && var p := Top(k.stacks[next]);
            && p < MAX_TASK
            && SaveContext(k).pcb[p].schedule == Some(Context(p, k.life[p], k.leftAt[next]))
            && CanTick(k)
            && Tick(k).running == next && Owns(Tick(k), p)
            && Tick(k).video == if next == k.current then REAL_VIDEO else BufferVideo(next)
  {
    NextWaits(k);
    TickKeepsSane(k);
    TickIsTurn(k, NextStarted(k.started, k.running));
  }

  /** The terminal whose turn is next is another one, and waits to be resumed. */
  lemma NextWaits(k: State)
    requires Sane(k) && (k.started[1] || k.started[2])
    ensures var next := NextStarted(k.started, k.running);
            && next != k.running && k.started[next] && k.stacks[next] != []
            && var p := Top(k.stacks[next]);
               p < MAX_TASK && SaveContext(k).pcb[p].schedule == Some(Context(p, k.life[p], k.leftAt[next]))
  {
    SavedIsResumable(k);
    assert Resumable(SaveContext(k), NextStarted(k.started, k.running));
  }

  lemma TickIsTurn(k: State, next: nat)
    requires Shaped(k) && CanTick(k) && (k.stacks[1] != [] || k.stacks[2] != [])
    requires next == NextStarted(k.started, k.running)
    ensures k.stacks[next] != []
    ensures var p := Top(k.stacks[next]);
            && p < MAX_TASK
            && SaveContext(k).pcb[p].schedule.Some? && SaveContext(k).pcb[p].schedule.value.pid < MAX_TASK
            && Tick(k) == Resumed(SaveContext(k), next, p)
  {
  }

  function Ticks(ops: seq<Op>): nat {
    if ops == [] then 0 else (if ops[0].OpTick? then 1 else 0) + Ticks(ops[1..])
  }

  /** The terminal that runs after each tick of a run. */
  function Landings(k: State, ops: seq<Op>): seq<nat>
    requires Sane(k) && AllPermitted(k, ops)
    decreases |ops|
  {
    if ops == [] then []
    else
      StepKeepsSaneIff(k, ops[0]);
      var r := Step(k, ops[0]);
      (if ops[0].OpTick? then [r.running] else []) + Landings(r, ops[1..])
  }

  /** No switch of the run starts a new terminal. */
  predicate StartsNone(k: State, ops: seq<Op>)
    requires Shaped(k)
  {
    forall i :: 0 <= i < |ops| && ops[i].OpSwitch? && ops[i].t < TERMINALS ==> k.started[ops[i].t]
  }

  function Rotation(started: seq<bool>, r: nat, n: nat): (s: seq<nat>)
    requires |started| == TERMINALS && r < TERMINALS
    ensures |s| == n
    decreases n
  {
    if n == 0 then []
    else [NextStarted(started, r)] + Rotation(started, NextStarted(started, r), n - 1)
  }

  function Count(started: seq<bool>): nat
    requires |started| == TERMINALS
  {
    (if started[0] then 1 else 0) + (if started[1] then 1 else 0) + (if started[2] then 1 else 0)
  }

  /** Going up from terminal `from`, and round, `to` is the first that has started. */
  predicate FirstFrom(started: seq<bool>, from: nat, to: nat)
    requires |started| == TERMINALS
  {
    exists d :: 1 <= d <= TERMINALS && Ahead(from, d) == to && started[to]
                && forall j :: 1 <= j < d ==> !started[Ahead(from, j)]
  }

  function Ahead(from: nat, d: nat): (t: nat)
    ensures t < TERMINALS
  {
    (from + d) % 3
  }

  lemma NextIsFirst(started: seq<bool>, r: nat)
    requires |started| == TERMINALS && r < TERMINALS && started[r]
    ensures FirstFrom(started, r, NextStarted(started, r))
  {
    var d := if started[Ahead(r, 1)] then 1 else if started[Ahead(r, 2)] then 2 else 3;
    assert Ahead(r, d) == NextStarted(started, r);
  }

  /** A tick goes to the first started terminal behind the one that runs, in ascending
      order and round. */
  lemma TickGoesToFirst(k: State)
    requires Sane(k) && (k.started[1] || k.started[2])
    ensures CanTick(k) && FirstFrom(k.started, k.running, Tick(k).running) && Tick(k).running != k.running
  {
    TickResumes(k);
    NextIsFirst(k.started, k.running);
  }

  /** The `i`-th of these turns is the first from the one before; `r` runs at the start. */
  predicate TurnFrom(started: seq<bool>, r: nat, turns: seq<nat>, i: nat)
    requires |started| == TERMINALS && i < |turns|
  {
    FirstFrom(started, if i == 0 then r else turns[i - 1], turns[i])
  }

  /** So does every tick of a run that starts no terminal; the ticks of a single
      terminal stay there. */
  lemma LandingsGoRound(k: State, ops: seq<Op>, i: nat)
    requires Sane(k) && AllPermitted(k, ops) && StartsNone(k, ops) && i < |Landings(k, ops)|
    ensures TurnFrom(k.started, k.running, Landings(k, ops), i)
  {
    LandingsRotate(k, ops);
    RotationGoesRound(k.started, k.running, Ticks(ops), i);
  }

  lemma {:induction false} RotationGoesRound(started: seq<bool>, r: nat, n: nat, i: nat)
    requires |started| == TERMINALS && r < TERMINALS && started[r] && i < n
    ensures TurnFrom(started, r, Rotation(started, r, n), i)
    decreases n
  {
    NextIsFirst(started, r);
    if i > 0 {
      RotationGoesRound(started, NextStarted(started, r), n - 1, i - 1);
    }
  }

  lemma AllStartedNext(started: seq<bool>, from: nat, to: nat)
    requires started == [true, true, true] && FirstFrom(started, from, to)
    ensures to == (from + 1) % 3
  {
    assert started[Ahead(from, 1)];
  }

  /** With all three started the turns are 0, 1, 2 and 0 again. */
  lemma LandingsCountUp(k: State, ops: seq<Op>, i: nat)
    requires Sane(k) && AllPermitted(k, ops) && StartsNone(k, ops) && i < |Landings(k, ops)|
    requires k.started == [true, true, true]
    ensures Landings(k, ops)[i] == (k.running + 1 + i) % 3
  {
    LandingsRotate(k, ops);
    RotationCountsUp(k.started, k.running, Ticks(ops), i);
  }

  lemma {:induction false} RotationCountsUp(started: seq<bool>, r: nat, n: nat, i: nat)
    requires started == [true, true, true] && r < TERMINALS && i < n
    ensures Rotation(started, r, n)[i] == (r + 1 + i) % 3
    decreases n
  {
    NextIsFirst(started, r);
    AllStartedNext(started, r, NextStarted(started, r));
    if i > 0 {
      RotationCountsUp(started, NextStarted(started, r), n - 1, i - 1);
    }
  }

  lemma StepTurns(k: State, op: Op)
    requires Sane(k) && (op.OpSwitch? && op.t < TERMINALS ==> k.started[op.t])
    ensures Step(k, op).started == k.started
    ensures Step(k, op).running == if op.OpTick? then NextStarted(k.started, k.running) else k.running
  {
    if op.OpTick? {
      TickTurns(k);
    }
  }

  lemma TickTurns(k: State)
    requires Sane(k)
    ensures CanTick(k) && Tick(k).started == k.started && Tick(k).running == NextStarted(k.started, k.running)
  {
    TickKeepsSane(k);
  }

  lemma {:induction false} LandingsRotate(k: State, ops: seq<Op>)
    requires Sane(k) && AllPermitted(k, ops) && StartsNone(k, ops)
    ensures Landings(k, ops) == Rotation(k.started, k.running, Ticks(ops))
    decreases |ops|
  {
    if ops != [] {
      StepKeepsSaneIff(k, ops[0]);
      StepTurns(k, ops[0]);
      LandingsRotate(Step(k, ops[0]), ops[1..]);
      LandingsUnfold(k, ops);
      RotationUnfold(k.started, k.running, Ticks(ops[1..]));
    }
  }

  lemma LandingsUnfold(k: State, ops: seq<Op>)
    requires Sane(k) && AllPermitted(k, ops) && ops != []
    requires Sane(Step(k, ops[0])) && AllPermitted(Step(k, ops[0]), ops[1..])
    ensures Ticks(ops) == (if ops[0].OpTick? then 1 else 0) + Ticks(ops[1..])
    ensures Landings(k, ops)
            == (if ops[0].OpTick? then [Step(k, ops[0]).running] else []) + Landings(Step(k, ops[0]), ops[1..])
  {
  }

  lemma RotationUnfold(started: seq<bool>, r: nat, n: nat)
    requires |started| == TERMINALS && r < TERMINALS
    ensures Rotation(started, r, n + 1) == [NextStarted(started, r)] + Rotation(started, NextStarted(started, r), n)
    ensures [] + Rotation(started, r, n) == Rotation(started, r, n)
  {
  }

  /** Round robin is fair: while no new terminal starts, whatever else happens, each
      started terminal runs again within as many ticks as there are started
      terminals, and the order of turns repeats. */
  lemma EveryTerminalGetsItsTurn(k: State, ops: seq<Op>, t: nat)
    requires Sane(k) && AllPermitted(k, ops) && StartsNone(k, ops)
    requires t < TERMINALS && k.started[t] && Ticks(ops) >= Count(k.started)
    ensures |Landings(k, ops)| == Ticks(ops)
    ensures t in Landings(k, ops)[..Count(k.started)]
  {
    LandingsRotate(k, ops);
    RotationIsFair(k.started, k.running, Ticks(ops), t);
  }

  lemma RotationIsFair(started: seq<bool>, r: nat, n: nat, t: nat)
    requires |started| == TERMINALS && r < TERMINALS && t < TERMINALS
    requires started[0] && started[r] && started[t] && n >= Count(started)
    ensures t in Rotation(started, r, n)[..Count(started)]
  {
    var s := Rotation(started, r, n);
    FirstTurns(started, r, n);
    var i := if s[0] == t then 0 else if s[1] == t then 1 else 2;
    assert s[..Count(started)][i] == s[i];
  }

  lemma FirstTurns(started: seq<bool>, r: nat, n: nat)
    requires |started| == TERMINALS && r < TERMINALS
    ensures var s, r1 := Rotation(started, r, n), NextStarted(started, r);
            && (n > 0 ==> s[0] == r1)
            && (n > 1 ==> s[1] == NextStarted(started, r1))
            && (n > 2 ==> s[2] == NextStarted(started, NextStarted(started, r1)))
  {
    var r1 := NextStarted(started, r);
    if n > 1 {
      assert Rotation(started, r, n)[1] == Rotation(started, r1, n - 1)[0];
      if n > 2 {
        assert Rotation(started, r, n)[2] == Rotation(started, r1, n - 1)[1];
        assert Rotation(started, r1, n - 1)[1] == Rotation(started, NextStarted(started, r1), n - 2)[0];
      }
    }
  }

  lemma {:induction false} TurnsRepeat(started: seq<bool>, r: nat, n: nat, i: nat)
    requires |started| == TERMINALS && r < TERMINALS
    requires started[0] && started[r] && i + Count(started) < n
    ensures Rotation(started, r, n)[i + Count(started)] == Rotation(started, r, n)[i]
    decreases n
  {
    var r1 := NextStarted(started, r);
    var s := Rotation(started, r, n);
    assert s[1..] == Rotation(started, r1, n - 1);
    if i > 0 {
      TurnsRepeat(started, r1, n - 1, i - 1);
    } else {
      var r2 := NextStarted(started, r1);
      assert s[1] == Rotation(started, r1, n - 1)[0] == r2;
      if Count(started) > 1 {
        var r3 := NextStarted(started, r2);
        assert s[2] == Rotation(started, r1, n - 1)[1] == Rotation(started, r2, n - 2)[0] == r3;
        if Count(started) > 2 {
          assert s[3] == Rotation(started, r1, n - 1)[2] == Rotation(started, r2, n - 2)[1]
                 == Rotation(started, r3, n - 3)[0];
        }
      }
    }
  }

  // --------------------------------------------------------------- kernel stacks

  const PCB_MASK: bv32 := 0x007F_E000

  /** The PCB address of a process as a 32-bit word. */
  function PcbBase(pid: nat): bv32
    requires pid < MAX_TASK
  {
    match pid
    case 0 => 0x007F_E000
    case 1 => 0x007F_C000
    case 2 => 0x007F_A000
    case 3 => 0x007F_8000
    case 4 => 0x007F_6000
    case _ => 0x007F_4000
  }

  /** `tss.esp0` is the last word of the process's own 8 KB, at whose other end lies its
      PCB: what an interrupt pushes stays clear of the kernel stacks next to it. */
  lemma StackTopIsLastWord(pid: nat)
    requires pid < MAX_TASK
    ensures StackTop(pid) + 4 == PcbAddress(pid) + EIGHT_KB
    ensures pid > 0 ==> StackTop(pid) + 4 == PcbAddress(pid - 1)
    ensures pid == 0 ==> StackTop(pid) + 4 == EIGHT_MB
  {
  }

  /** In every sane state it is that word for the process on top of the running terminal. */
  lemma SaneEsp0(k: State)
    requires Sane(k)
    ensures var p := Top(k.stacks[k.running]);
            p < MAX_TASK && k.cpu == p && k.esp0 + 4 == PcbAddress(p) + EIGHT_KB == PcbBase(p) as int + EIGHT_KB
  {
    var stack := k.stacks[k.running];
    assert Linked(stack, |stack| - 1, k.pcb);
    PcbBaseIsAddress(Top(stack));
  }

  lemma PcbBaseIsAddress(pid: nat)
    requires pid < MAX_TASK
    ensures PcbBase(pid) as int == PcbAddress(pid)
    ensures PcbAddress(pid) <= StackTop(pid) < PcbAddress(pid) + EIGHT_KB
  {
  }

  /** `get_curr_pcb`: any stack pointer within the 8 KB kernel stack of a process,
      masked, is the address of that process's PCB and of no other. */
  lemma MaskFindsPcb(pid: nat, esp: bv32)
    requires pid < MAX_TASK
    ensures PcbBase(pid) <= esp < PcbBase(pid) + 0x2000 <==>
            0x007F_4000 <= esp < 0x0080_0000 && esp & PCB_MASK == PcbBase(pid)
  {
  }
}
