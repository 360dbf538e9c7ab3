/**
 The page tables: what the mapping calls write into them, read back by the
 processor's page walk (Intel SDM volume 3A, section 4.3, with 4 MB pages on).
 After any run of mapping calls the tables translate every linear address exactly
 as `Translation` says, from which the separation of processes follows.

 The fields that the source joins with `|` never overlap, so they are added here.
 */
module Paging {
  import opened Common
  import Processes

  const DIR_SIZE := 1024
  const TABLE_SIZE := 1024
  const PRESENT := 0x1
  const R_W := 0x2
  const U_S := 0x4
  const PS := 0x80
  const FOUR_KB := Processes.FOUR_KB
  const FOUR_MB := Processes.FOUR_MB
  const EIGHT_MB := Processes.EIGHT_MB
  const KERNEL_OFFSET := 0x40_0000
  const VIDEO_OFFSET := Processes.VIDEO
  const PROGRAM_VIRTUAL := 32                   // 128 MB
  const USER_VIDEO_DIR := 52                    // 208 MB
  const MAX_ADDRESS := 0x1_0000_0000

  // ------------------------------------------------------------------- the walk

  predicate Bit(w: nat, mask: nat)
    requires mask > 0
  {
    w % FOUR_KB / mask % 2 == 1
  }

  /** The three tables and where the two second-level ones lie in memory. */
  datatype Tables = Tables(dir: seq<nat>, low: seq<nat>, vid: seq<nat>, lowAt: nat, vidAt: nat)

  predicate Shaped(t: Tables) {
    && |t.dir| == DIR_SIZE && |t.low| == TABLE_SIZE && |t.vid| == TABLE_SIZE
    && t.lowAt % FOUR_KB == 0 && t.vidAt % FOUR_KB == 0 && t.lowAt != t.vidAt
  }

  datatype Access = Fault | Mapped(physical: nat, user: bool, writable: bool)

  /** The processor's translation of a linear address. */
  function Walk(t: Tables, a: nat): Access
    requires Shaped(t) && a < MAX_ADDRESS
  {
    var e := t.dir[a / FOUR_MB];
    if !Bit(e, PRESENT) then Fault
    else if Bit(e, PS) then Mapped(e / FOUR_MB * FOUR_MB + a % FOUR_MB, Bit(e, U_S), Bit(e, R_W))
    else if e / FOUR_KB * FOUR_KB == t.lowAt then Through(e, t.low[a % FOUR_MB / FOUR_KB], a)
    else if e / FOUR_KB * FOUR_KB == t.vidAt then Through(e, t.vid[a % FOUR_MB / FOUR_KB], a)
    else Fault
  }

  /** The second level: a page is the user's, or writable, if both levels say so. */
  function Through(e: nat, page: nat, a: nat): Access {
    if !Bit(page, PRESENT) then Fault
    else Mapped(page / FOUR_KB * FOUR_KB + a % FOUR_KB, Bit(e, U_S) && Bit(page, U_S), Bit(e, R_W) && Bit(page, R_W))
  }

  // ---------------------------------------------------------- what is to be mapped

  /** What the mapping calls choose: whose program is mapped, and which 4 KB page
      from video memory on the user's video page shows. */
  datatype Layout = Layout(program: Option<nat>, video: Option<nat>)

  /** The address space, said outright. */
  function Translation(l: Layout, a: nat): Access {
    if 0xB_8000 <= a < 0xB_C000 then Mapped(a, false, false)
    else if 0x40_0000 <= a < 0x80_0000 then Mapped(a, false, false)
    else if 0x800_0000 <= a < 0x840_0000 && l.program.Some? then
      Mapped(EIGHT_MB + l.program.value * FOUR_MB + (a - 0x800_0000), true, true)
    else if 0xD00_0000 <= a < 0xD00_1000 && l.video.Some? then
      Mapped(VIDEO_OFFSET + l.video.value * FOUR_KB + (a - 0xD00_0000), true, true)
    else Fault
  }

  function UserPage(page: nat): nat { U_S + R_W + PRESENT + VIDEO_OFFSET + page * FOUR_KB }

  function DirEntry(l: Layout, lowAt: nat, vidAt: nat, i: nat): nat {
    if i == 0 then PRESENT + lowAt
    else if i == 1 then PRESENT + PS + KERNEL_OFFSET
    else if i == PROGRAM_VIRTUAL && l.program.Some? then Processes.ProgramEntry(l.program.value)
    else if i == USER_VIDEO_DIR && l.video.Some? then PRESENT + vidAt + R_W + U_S
    else R_W
  }

  function LowEntry(i: nat): nat {
    if 0xB8 <= i < 0xBC then PRESENT + i * FOUR_KB + R_W else R_W + i * FOUR_KB
  }

  function VidEntry(l: Layout, i: nat): nat {
    if i == 0 && l.video.Some? then UserPage(l.video.value) else 0
  }

  /** The tables of a layout. */
  ghost function TablesOf(l: Layout, lowAt: nat, vidAt: nat): Tables {
    Tables(seq(DIR_SIZE, i requires 0 <= i => DirEntry(l, lowAt, vidAt, i)),
           seq(TABLE_SIZE, i requires 0 <= i => LowEntry(i)),
           seq(TABLE_SIZE, i requires 0 <= i => VidEntry(l, i)), lowAt, vidAt)
  }

  /** The tables hold this layout. */
  ghost predicate Shows(t: Tables, l: Layout) {
    Shaped(t) && t == TablesOf(l, t.lowAt, t.vidAt)
  }

  lemma SplitWord(page: nat, flags: nat)
    requires flags < FOUR_KB
    ensures (page * FOUR_KB + flags) / FOUR_KB == page && (page * FOUR_KB + flags) % FOUR_KB == flags
  {
  }

  lemma WalkOfLow(t: Tables, l: Layout, a: nat)
    requires Shows(t, l) && a < FOUR_MB
    ensures Walk(t, a) == Translation(l, a)
  {
    var i := a / FOUR_KB;
    SplitWord(t.lowAt / FOUR_KB, PRESENT);
    SplitWord(i, PRESENT + R_W);
    SplitWord(i, R_W);
  }

  lemma WalkOfProgram(t: Tables, l: Layout, a: nat)
    requires Shows(t, l) && a / FOUR_MB == PROGRAM_VIRTUAL && a < MAX_ADDRESS
    ensures Walk(t, a) == Translation(l, a)
  {
    if l.program.Some? {
      SplitWord(0x400 * l.program.value + 0x800, PRESENT + PS + U_S + R_W);
    }
  }

  lemma WalkOfUserVideo(t: Tables, l: Layout, a: nat)
    requires Shows(t, l) && a / FOUR_MB == USER_VIDEO_DIR && a < MAX_ADDRESS
    ensures Walk(t, a) == Translation(l, a)
  {
    if l.video.Some? {
      SplitWord(t.vidAt / FOUR_KB, PRESENT + R_W + U_S);
      SplitWord(VIDEO_OFFSET / FOUR_KB + l.video.value, U_S + R_W + PRESENT);
    }
  }

  /** The tables translate every address as the layout says. */
  lemma WalkIsTranslation(t: Tables, l: Layout, a: nat)
    requires Shows(t, l) && a < MAX_ADDRESS
    ensures Walk(t, a) == Translation(l, a)
  {
    var i := a / FOUR_MB;
    if i == 0 {
      WalkOfLow(t, l, a);
    } else if i == PROGRAM_VIRTUAL {
      WalkOfProgram(t, l, a);
    } else if i == USER_VIDEO_DIR {
      WalkOfUserVideo(t, l, a);
    } else {
      assert TablesOf(l, t.lowAt, t.vidAt).dir[i] == DirEntry(l, t.lowAt, t.vidAt, i);
    }
  }

  // ------------------------------------------------------------------------ runs

  datatype Op =
    | MapProgram(pid: nat)
    | MapUserVideo
    | MapTerminalVideo(t: nat)

  predicate InRange(op: Op) {
    match op
    case MapProgram(pid) => pid < Processes.MAX_TASK
    case MapUserVideo => true
    case MapTerminalVideo(t) => t < TERMINALS
  }

  function After(l: Layout, op: Op): Layout {
    match op
    case MapProgram(pid) => l.(program := Some(pid))
    case MapUserVideo => l.(video := Some(0))
    case MapTerminalVideo(t) => l.(video := Some(t + 1))
  }

  const AT_BOOT := Layout(None, None)

  function Run(ops: seq<Op>): Layout {
    if ops == [] then AT_BOOT else After(Run(ops[..|ops| - 1]), ops[|ops| - 1])
  }

  predicate AllInRange(ops: seq<Op>) {
    forall i :: 0 <= i < |ops| ==> InRange(ops[i])
  }

  lemma {:induction false} RunInRange(ops: seq<Op>)
    requires AllInRange(ops)
    ensures Run(ops).program.Some? ==> Run(ops).program.value < Processes.MAX_TASK
    ensures Run(ops).video.Some? ==> Run(ops).video.value <= TERMINALS
  {
    if ops != [] {
      RunInRange(ops[..|ops| - 1]);
    }
  }

  predicate InFrame(pid: nat, physical: nat) {
    EIGHT_MB + pid * FOUR_MB <= physical < EIGHT_MB + (pid + 1) * FOUR_MB
  }

  /**
   Address-space isolation, after any run of mapping calls: a user program reaches
   the 4 MB at 128 MB and one 4 KB page at 208 MB and nothing else; behind them
   lie its own frame and video memory or a terminal's buffer, never the kernel;
   and the kernel's own pages keep their addresses.
   */
  lemma AddressSpacesAreIsolated(t: Tables, ops: seq<Op>, a: nat)
    requires AllInRange(ops) && Shows(t, Run(ops)) && a < MAX_ADDRESS
    ensures Walk(t, a).Mapped? && Walk(t, a).user ==>
      var p := Walk(t, a).physical;
      || (&& 0x800_0000 <= a < 0x840_0000 && Run(ops).program.Some?
          && InFrame(Run(ops).program.value, p) && p < 0x200_0000)
      || (&& 0xD00_0000 <= a < 0xD00_1000 && Run(ops).video.Some? && 0xB_8000 <= p < 0xB_C000)
    ensures 0x40_0000 <= a < 0x80_0000 || 0xB_8000 <= a < 0xB_C000 ==>
      Walk(t, a).Mapped? && Walk(t, a).physical == a && !Walk(t, a).user
  {
    WalkIsTranslation(t, Run(ops), a);
    RunInRange(ops);
  }

  /** Under the mappings of two different processes no address of one leads to memory of the other. */
  lemma ProgramsAreApart(t: Tables, l: Layout, a: nat, u: Tables, m: Layout, b: nat)
    requires Shows(t, l) && Shows(u, m) && l.program.Some? && m.program.Some?
    requires l.program != m.program
    requires 0x800_0000 <= a < 0x840_0000 && 0x800_0000 <= b < 0x840_0000
    ensures Walk(t, a).Mapped? && Walk(u, b).Mapped? && Walk(t, a).physical != Walk(u, b).physical
  {
    InOwnFrame(t, l, a);
    InOwnFrame(u, m, b);
  }

  lemma InOwnFrame(t: Tables, l: Layout, a: nat)
    requires Shows(t, l) && l.program.Some? && 0x800_0000 <= a < 0x840_0000
    ensures Walk(t, a).Mapped? && InFrame(l.program.value, Walk(t, a).physical)
  {
    WalkIsTranslation(t, l, a);
  }

  /** Where the entries of a layout are those of a sane state of the processes, the
      program window is the running process's own frame. */
  lemma RunningProgramIsMapped(t: Tables, l: Layout, k: Processes.State, a: nat)
    requires Processes.Sane(k) && Shows(t, l) && ProgramWord(l) == k.page
    requires 0x800_0000 <= a < 0x840_0000
    ensures Walk(t, a) == Mapped(EIGHT_MB + Processes.Top(k.stacks[k.running]) * FOUR_MB + (a - 0x800_0000), true, true)
  {
    WalkIsTranslation(t, l, a);
    assert k.page == Processes.ProgramEntry(Processes.Top(k.stacks[k.running]));
  }

  /** Where they are those of a state right after a tick, the user's video page is the
      real screen exactly if the running terminal is on display, and that terminal's
      own buffer otherwise. */
  lemma TickMapsTheTerminal(t: Tables, l: Layout, k: Processes.State, a: nat)
    requires Processes.Sane(k) && (k.started[1] || k.started[2]) && Processes.CanTick(k)
    requires Shows(t, l) && VideoWord(l) == Processes.Tick(k).video
    requires 0xD00_0000 <= a < 0xD00_1000
    ensures var next := Processes.Tick(k).running;
            var page := if next == k.current then 0 else next + 1;
            Walk(t, a) == Mapped(VIDEO_OFFSET + page * FOUR_KB + (a - 0xD00_0000), true, true)
  {
    WalkIsTranslation(t, l, a);
    Processes.TickResumes(k);
  }

  /** The entry of the program window, and that of the user's video page. */
  function ProgramWord(l: Layout): nat {
    if l.program.Some? then Processes.ProgramEntry(l.program.value) else R_W
  }

  function VideoWord(l: Layout): nat {
    if l.video.Some? then UserPage(l.video.value) else 0
  }

  // -------------------------------------------------------------------- in place

  class PageTables {
    const pageDirectory: array<nat>
    const pageTable: array<nat>
    const pageTableVidmem: array<nat>
    const lowAt: nat                   // where the linker put page_table
    const vidAt: nat                   // and page_table_vidmem
    ghost var log: seq<Op>             // every mapping call since `init_page`

    constructor (lowAt: nat, vidAt: nat)
      requires lowAt % FOUR_KB == 0 && vidAt % FOUR_KB == 0 && lowAt != vidAt
      ensures Allocated() && this.lowAt == lowAt && this.vidAt == vidAt
      ensures forall i :: 0 <= i < TABLE_SIZE ==> pageTableVidmem[i] == 0
      ensures fresh(pageDirectory) && fresh(pageTable) && fresh(pageTableVidmem)
    {
      pageDirectory := new nat[DIR_SIZE](_ => 0);
      pageTable := new nat[TABLE_SIZE](_ => 0);
      pageTableVidmem := new nat[TABLE_SIZE](_ => 0);
      this.lowAt, this.vidAt := lowAt, vidAt;
    }

    ghost predicate Allocated()
    {
      && pageDirectory.Length == DIR_SIZE && pageTable.Length == TABLE_SIZE && pageTableVidmem.Length == TABLE_SIZE
      && pageDirectory != pageTable && pageDirectory != pageTableVidmem && pageTable != pageTableVidmem
      && lowAt % FOUR_KB == 0 && vidAt % FOUR_KB == 0 && lowAt != vidAt
    }

    ghost function TheTables(): Tables
      reads pageDirectory, pageTable, pageTableVidmem
    {
      Tables(pageDirectory[..], pageTable[..], pageTableVidmem[..], lowAt, vidAt)
    }

    ghost predicate Valid()
      reads this, pageDirectory, pageTable, pageTableVidmem
    {
      Allocated() && Shows(TheTables(), Run(log))
    }

    ghost method Record(op: Op)
      requires Allocated() && Shows(TheTables(), After(Run(log), op))
      modifies this`log
      ensures Valid() && log == old(log) + [op] && Run(log) == After(Run(old(log)), op)
    {
      log := log + [op];
      assert log[..|log| - 1] == old(log);
    }

    /** Address-space isolation, in every state the mapping calls can reach. */
    lemma UserReach(a: nat)
      requires Valid() && AllInRange(log) && a < MAX_ADDRESS
      requires Walk(TheTables(), a).Mapped? && Walk(TheTables(), a).user
      ensures var p := Walk(TheTables(), a).physical;
              || (0x800_0000 <= a < 0x840_0000 && Run(log).program.Some? && InFrame(Run(log).program.value, p))
              || (0xD00_0000 <= a < 0xD00_1000 && 0xB_8000 <= p < 0xB_C000)
    {
      AddressSpacesAreIsolated(TheTables(), log, a);
    }

    method InitPage()
      requires Allocated() && forall i :: 0 <= i < TABLE_SIZE ==> pageTableVidmem[i] == 0
      modifies this, pageDirectory, pageTable
      ensures Valid() && log == []
    {
      for i := 0 to DIR_SIZE
        invariant forall j :: 0 <= j < i ==> pageDirectory[j] == R_W
      {
        pageDirectory[i] := 0;
        pageDirectory[i] := pageDirectory[i] + R_W;
      }
      var baseAdd := 0;
      for i := 0 to TABLE_SIZE
        invariant baseAdd == i * FOUR_KB
        invariant forall j :: 0 <= j < DIR_SIZE ==> pageDirectory[j] == R_W
        invariant forall j :: 0 <= j < i ==> pageTable[j] == R_W + j * FOUR_KB
      {
        pageTable[i] := 0;
        pageTable[i] := pageTable[i] + R_W;
        pageTable[i] := pageTable[i] + baseAdd;
        baseAdd := baseAdd + FOUR_KB;
      }
      MapKernel();
      InitializePageTable();
      MapVideo();
      log := [];
    }

    method MapKernel()
      requires Allocated()
      modifies pageDirectory
      ensures pageDirectory[..] == old(pageDirectory[..])[1 := PRESENT + PS + KERNEL_OFFSET]
    {
      pageDirectory[1] := PRESENT + PS + KERNEL_OFFSET;
    }

    method InitializePageTable()
      requires Allocated()
      modifies pageDirectory
      ensures pageDirectory[..] == old(pageDirectory[..])[0 := PRESENT + lowAt]
    {
      pageDirectory[0] := PRESENT + lowAt / FOUR_KB * FOUR_KB;
    }

    method MapVideo()
      requires Allocated()
      modifies pageTable
      ensures forall i :: 0 <= i < TABLE_SIZE ==>
        pageTable[i] == if 0xB8 <= i < 0xBC then PRESENT + i * FOUR_KB + R_W else old(pageTable[i])
    {
      pageTable[VIDEO_OFFSET / FOUR_KB] := PRESENT + VIDEO_OFFSET + R_W;
      pageTable[VIDEO_OFFSET / FOUR_KB + 1] := PRESENT + (VIDEO_OFFSET + FOUR_KB) + R_W;
      pageTable[VIDEO_OFFSET / FOUR_KB + 2] := PRESENT + (VIDEO_OFFSET + 2 * FOUR_KB) + R_W;
      pageTable[VIDEO_OFFSET / FOUR_KB + 3] := PRESENT + (VIDEO_OFFSET + 3 * FOUR_KB) + R_W;
    }

    /** The entry must fit in 32 bits, as it does for every process id of the kernel. */
    method MapProgram(pid: nat)
      requires Valid() && Processes.ProgramEntry(pid) < MAX_ADDRESS
      modifies this, pageDirectory
      ensures Valid() && log == old(log) + [Op.MapProgram(pid)]
      ensures Run(log) == After(Run(old(log)), Op.MapProgram(pid))
    {
      pageDirectory[PROGRAM_VIRTUAL] := PRESENT + PS + U_S + R_W + (pid * FOUR_MB + EIGHT_MB);
      Record(Op.MapProgram(pid));
    }

    method MapUserVideo()
      requires Valid()
      modifies this, pageDirectory, pageTableVidmem
      ensures Valid() && log == old(log) + [Op.MapUserVideo]
      ensures Run(log) == After(Run(old(log)), Op.MapUserVideo)
    {
      pageDirectory[USER_VIDEO_DIR] := PRESENT + vidAt + R_W + U_S;
      pageTableVidmem[0] := U_S + R_W + PRESENT + VIDEO_OFFSET;
      Record(Op.MapUserVideo);
    }

    method MapTerminalVideo(t: nat)
      requires Valid() && t < 256
      modifies this, pageDirectory, pageTableVidmem
      ensures Valid() && log == old(log) + [Op.MapTerminalVideo(t)]
      ensures Run(log) == After(Run(old(log)), Op.MapTerminalVideo(t))
    {
      pageDirectory[USER_VIDEO_DIR] := PRESENT + vidAt + R_W + U_S;
      pageTableVidmem[0] := U_S + R_W + PRESENT + (VIDEO_OFFSET + (t + 1) * FOUR_KB);
      Record(Op.MapTerminalVideo(t));
    }

    method MapUserVideoToBuffer(t: nat, current: nat)
      requires Valid() && t < 256
      modifies this, pageDirectory, pageTableVidmem
      ensures Valid() && log == old(log) + [if t == current then Op.MapUserVideo else Op.MapTerminalVideo(t)]
      ensures Run(log) == After(Run(old(log)), if t == current then Op.MapUserVideo else Op.MapTerminalVideo(t))
    {
      if t == current {
        MapUserVideo();
      } else {
        MapTerminalVideo(t);
      }
    }
  }
}
