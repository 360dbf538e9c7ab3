/**
 A process's file descriptors: `open`, `read` and `close` on the eight slots of its
 PCB, and the byte streams a program sees through them.
 */
module Descriptors {
  import opened Common
  import opened FileSystem

  const MIN_FD := 2
  const MAX_FD := 8
  const RTC_TYPE := 0
  const DIR_TYPE := 1
  const REGULAR_FILE := 2

  /** Which table of operations a slot points to. */
  datatype Kind = Failing | Stdin | Stdout | Rtc | Directory | Regular

  datatype FileDesc = FileDesc(inUse: bool, filePos: nat, inode: nat, kind: Kind)

  // ------------------------------------------------------------------- the names

  /** The bytes of a name field before its first NUL. */
  function NameOf(field: seq<byte>): (n: seq<byte>)
    ensures |n| <= |field| && n == field[..|n|]
    ensures forall i :: 0 <= i < |n| ==> n[i] != 0
    ensures |n| < |field| ==> field[|n|] == 0
  {
    if field == [] || field[0] == 0 then [] else [field[0]] + NameOf(field[1..])
  }

  lemma {:induction false} NameIsUnique(field: seq<byte>, k: nat)
    requires k <= |field| && forall i :: 0 <= i < k ==> field[i] != 0
    requires k < |field| ==> field[k] == 0
    ensures |NameOf(field)| == k
  {
    var n := NameOf(field);
    assert forall i :: 0 <= i < |n| ==> n[i] == field[i];
  }

  /** The first directory entry with exactly this name. */
  function Lookup(ds: seq<Dentry>, fname: seq<byte>): (d: Option<Dentry>)
    ensures d.Some? ==> d.value in ds && NameOf(d.value.name) == fname
    ensures d.None? ==> forall i :: 0 <= i < |ds| ==> NameOf(ds[i].name) != fname
  {
    if ds == [] then None
    else if NameOf(ds[0].name) == fname then Some(ds[0])
    else Lookup(ds[1..], fname)
  }

  lemma {:induction false} LookupIsFirst(ds: seq<Dentry>, fname: seq<byte>, i: nat)
    requires i < |ds| && NameOf(ds[i].name) == fname && forall j :: 0 <= j < i ==> NameOf(ds[j].name) != fname
    ensures Lookup(ds, fname) == Some(ds[i])
  {
    if i > 0 {
      LookupIsFirst(ds[1..], fname, i - 1);
    }
  }

  /** Length of the text in a 32-byte field, 32 if it fills the field. */
  method Strlen(field: seq<byte>) returns (n: nat)
    ensures n == |NameOf(field)|
  {
    n := 0;
    while n < |field| && field[n] != 0
      invariant n <= |field| && forall i :: 0 <= i < n ==> field[i] != 0
    {
      n := n + 1;
    }
    NameIsUnique(field, n);
  }

  /** `strncmp(fname, name, |fname|)`: the difference at the first place where the
      two differ or end. */
  method Strncmp(fname: seq<byte>, name: seq<byte>) returns (r: int)
    requires |fname| <= |name| && forall i :: 0 <= i < |fname| ==> fname[i] != 0
    ensures r == 0 <==> fname == name[..|fname|]
  {
    var i := 0;
    while i < |fname|
      invariant 0 <= i <= |fname| && fname[..i] == name[..i]
    {
      if fname[i] != name[i] || fname[i] == 0 {
        assert name[..|fname|][i] == name[i];
        return fname[i] as int - name[i] as int;
      }
      i := i + 1;
    }
    return 0;
  }

  /** `read_dentry_by_name` */
  method ReadDentryByName(img: Image, fname: seq<byte>) returns (d: Option<Dentry>)
    requires forall k :: 0 <= k < |img.dentries| ==> |img.dentries[k].name| == NAME
    requires forall i :: 0 <= i < |fname| ==> fname[i] != 0
    ensures d == Lookup(img.dentries, fname)
  {
    if |fname| > NAME {
      NoLongName(img.dentries, fname);
      return None;
    }
    var i := 0;
    while i < |img.dentries|
      invariant 0 <= i <= |img.dentries|
      invariant Lookup(img.dentries, fname) == Lookup(img.dentries[i..], fname)
    {
      var entry := img.dentries[i];
      var differ := Strncmp(fname, entry.name);
      var length := Strlen(entry.name);
      if differ == 0 && |fname| == length {
        return Some(entry);
      }
      assert NameOf(entry.name) == entry.name[..length];
      i := i + 1;
    }
    return None;
  }

  /** A name field holds up to 32 bytes, with or without a NUL behind them. */
  lemma {:induction false} NoLongName(ds: seq<Dentry>, fname: seq<byte>)
    requires forall k :: 0 <= k < |ds| ==> |ds[k].name| == 32
    requires |fname| > 32
    ensures Lookup(ds, fname) == None
  {
    if ds != [] {
      NoLongName(ds[1..], fname);
    }
  }

  // ------------------------------------------------------------ the calls, as values

  type Files = s: seq<FileDesc> | |s| == MAX_FD
    witness seq(MAX_FD, _ => FileDesc(false, 0, 0, Failing))

  /** The lowest unused slot from `from` on; 8 if there is none. */
  function FreeSlot(files: Files, from: nat): (fd: nat)
    requires from <= MAX_FD
    ensures from <= fd <= MAX_FD
    ensures fd < MAX_FD ==> !files[fd].inUse
    ensures forall i :: from <= i < fd ==> files[i].inUse
    decreases MAX_FD - from
  {
    if from == MAX_FD || !files[from].inUse then from else FreeSlot(files, from + 1)
  }

  function KindOf(ftype: nat, stale: Kind): Kind {
    if ftype == RTC_TYPE then Rtc
    else if ftype == DIR_TYPE then Directory
    else if ftype == REGULAR_FILE then Regular
    else stale
  }

  /** `open`: the slot is taken before the type of the file is looked at. */
  function Opened(img: Image, files: Files, fname: seq<byte>): (r: (Files, int)) {
    var d := Lookup(img.dentries, fname);
    var fd := FreeSlot(files, MIN_FD);
    if d.None? || fd == MAX_FD then (files, -1)
    else
      (files[fd := FileDesc(true, 0, d.value.inode, KindOf(d.value.ftype, files[fd].kind))],
       if d.value.ftype <= REGULAR_FILE then fd else -1)
  }

  /** `read` on a regular file; other kinds of descriptor move no file position. */
  function AfterRead(img: Image, files: Files, fd: int, n: int): (r: (Files, seq<byte>))
    requires |img.inodes| > 0
  {
    if fd < 0 || fd >= MAX_FD || n < 0 || !files[fd].inUse || !files[fd].kind.Regular?
       || !WellFormed(img, files[fd].inode) then (files, [])
    else
      var f := files[fd];
      var got := ReadLength(img, f.inode, f.filePos, n);
      (files[fd := f.(filePos := f.filePos + got)],
       if got > 0 then Content(img, f.inode)[f.filePos..f.filePos + got] else [])
  }

  /** `close` */
  function Closed(files: Files, fd: int): (r: (Files, int)) {
    if fd < MIN_FD || fd >= MAX_FD || !files[fd].inUse then (files, -1)
    else (files[fd := files[fd].(inUse := false)], if files[fd].kind.Failing? then -1 else 0)
  }

  /** `open` hands out the lowest free slot of 2..7 and touches no other. */
  lemma OpenTakesLowestSlot(img: Image, files: Files, fname: seq<byte>)
    ensures var (after, r) := Opened(img, files, fname);
            r >= 0 ==>
              && MIN_FD <= r < MAX_FD && !files[r].inUse && after[r].inUse && after[r].filePos == 0
              && (forall i :: MIN_FD <= i < r ==> files[i].inUse)
              && (forall i :: 0 <= i < MAX_FD && i != r ==> after[i] == files[i])
  {
  }

  /** It succeeds exactly for a name of known type while a slot is free, and the slot then
      stands at the start of the file of that name. */
  lemma OpenDescribesTheFile(img: Image, files: Files, fname: seq<byte>)
    ensures var (after, r) := Opened(img, files, fname);
            var d := Lookup(img.dentries, fname);
            && (r >= 0 <==> d.Some? && d.value.ftype < 3 && exists i :: 2 <= i < MAX_FD && !files[i].inUse)
            && (r < 0 ==> r == -1)
            && (r >= 0 ==> r < MAX_FD
                           && after[r] == FileDesc(true, 0, d.value.inode, [Rtc, Directory, Regular][d.value.ftype]))
  {
  }

  /** A read moves the position of its own descriptor by the bytes it returns. */
  lemma ReadMovesOnlyItsPosition(img: Image, files: Files, fd: nat, n: int)
    requires |img.inodes| > 0 && fd < MAX_FD
    ensures var (after, bytes) := AfterRead(img, files, fd, n);
            && after[fd] == files[fd].(filePos := files[fd].filePos + |bytes|)
            && (forall i :: 0 <= i < MAX_FD && i != fd ==> after[i] == files[i])
  {
  }

  /** `close` frees a slot of 2..7 that is in use and changes nothing else. */
  lemma CloseOnlyFreesTheSlot(files: Files, fd: int)
    ensures var (after, r) := Closed(files, fd);
            && (r == 0 <==> 2 <= fd < 8 && files[fd].inUse && !files[fd].kind.Failing?)
            && (r == 0 ==> after[fd] == files[fd].(inUse := false))
            && (r != 0 ==> r == -1)
            && (forall i :: 0 <= i < MAX_FD && i != fd ==> after[i] == files[i])
            && (2 <= fd < MAX_FD ==> !after[fd].inUse)
  {
  }

  /** A failed `open` leaves the table as it was, except that a file of unknown type
      costs a descriptor: exactly when the name exists and a slot was free. */
  lemma FailedOpenIsHarmlessIff(img: Image, files: Files, fname: seq<byte>)
    requires Opened(img, files, fname).1 == -1
    ensures Opened(img, files, fname).0 == files
            <==> Lookup(img.dentries, fname).None? || FreeSlot(files, MIN_FD) == MAX_FD
  {
    var (after, r) := Opened(img, files, fname);
    var fd := FreeSlot(files, MIN_FD);
    if Lookup(img.dentries, fname).Some? && fd < MAX_FD {
      assert after[fd].inUse != files[fd].inUse;
    }
  }

  /** A directory of one entry, `a`, of type 3. */
  function UnknownType(): Image {
    Image([Dentry([97] + seq(NAME - 1, _ => 0), 3, 0)], [Inode(0, [])], [])
  }

  /** There, opening `a` fails and a new process has lost its first descriptor. */
  lemma UnknownTypeCostsASlot(files: Files)
    requires FreshProcess(files)
    ensures var (after, r) := Opened(UnknownType(), files, [97]);
            r == -1 && !files[MIN_FD].inUse && after[MIN_FD].inUse
  {
    NameIsUnique(UnknownType().dentries[0].name, 1);
    assert Lookup(UnknownType().dentries, [97]).Some?;
    assert FreeSlot(files, MIN_FD) == MIN_FD;
  }

  // ----------------------------------------------------------------- whole runs

  datatype Op = Open(fname: seq<byte>) | Read(fd: int, n: int) | Close(fd: int)

  /** Every entry has a known type, and every regular file is well formed. */
  predicate GoodDirectory(img: Image) {
    && |img.inodes| > 0
    && forall i :: 0 <= i < |img.dentries| ==>
         && img.dentries[i].ftype <= REGULAR_FILE
         && (img.dentries[i].ftype == REGULAR_FILE ==> WellFormed(img, img.dentries[i].inode))
  }

  function Step(img: Image, files: Files, op: Op): Files
    requires |img.inodes| > 0
  {
    match op
    case Open(fname) => Opened(img, files, fname).0
    case Read(fd, n) => AfterRead(img, files, fd, n).0
    case Close(fd) => Closed(files, fd).0
  }

  function Run(img: Image, files: Files, ops: seq<Op>): Files
    requires |img.inodes| > 0
  {
    if ops == [] then files else Step(img, Run(img, files, ops[..|ops| - 1]), ops[|ops| - 1])
  }

  /** A new process: standard input and output, nothing else. */
  predicate FreshProcess(files: Files) {
    && files[0].inUse && files[0].kind.Stdin? && files[1].inUse && files[1].kind.Stdout?
    && forall fd :: MIN_FD <= fd < MAX_FD ==> !files[fd].inUse
  }

  /** The bytes descriptor `fd` has returned since it was last opened. */
  function Returned(img: Image, files: Files, ops: seq<Op>, fd: nat): seq<byte>
    requires |img.inodes| > 0
  {
    if ops == [] then []
    else
      var init := ops[..|ops| - 1];
      var before := Returned(img, files, init, fd);
      match ops[|ops| - 1]
      case Open(fname) => if Opened(img, Run(img, files, init), fname).1 == fd then [] else before
      case Read(g, n) => if g == fd then before + AfterRead(img, Run(img, files, init), g, n).1 else before
      case Close(_) => before
  }

  predicate InStep(img: Image, file: FileDesc, returned: seq<byte>) {
    file.inUse && file.kind.Regular? ==>
      && WellFormed(img, file.inode) && file.filePos <= img.inodes[file.inode].size
      && returned == Content(img, file.inode)[..file.filePos]
  }

  lemma ReadInStep(img: Image, files: Files, fd: nat, n: int, returned: seq<byte>)
    requires |img.inodes| > 0 && fd < MAX_FD && InStep(img, files[fd], returned)
    ensures var (after, bytes) := AfterRead(img, files, fd, n);
            InStep(img, after[fd], returned + bytes)
  {
    var f := files[fd];
    if f.inUse && f.kind.Regular? && n >= 0 {
      var c := Content(img, f.inode);
      var got := ReadLength(img, f.inode, f.filePos, n);
      assert c[..f.filePos + got] == c[..f.filePos] + c[f.filePos..f.filePos + got];
      assert got == 0 ==> c[f.filePos..f.filePos] == [];
    }
  }

  /** Descriptor streams are independent: under any interleaving of opens, reads of
      any sizes and closes, what each descriptor of a regular file has returned since
      it was opened is a prefix of that file; descriptors 0 and 1 stay open. */
  lemma {:induction false} StreamsArePrefixes(img: Image, files: Files, ops: seq<Op>, fd: nat)
    requires GoodDirectory(img) && FreshProcess(files) && MIN_FD <= fd < MAX_FD
    ensures var after := Run(img, files, ops);
            && after[0] == files[0] && after[1] == files[1]
            && InStep(img, after[fd], Returned(img, files, ops, fd))
  {
    if ops != [] {
      var init, last := ops[..|ops| - 1], ops[|ops| - 1];
      StreamsArePrefixes(img, files, init, fd);
      var now := Run(img, files, init);
      match last
      case Open(fname) =>
        OpenTakesLowestSlot(img, now, fname);
      case Read(g, n) =>
        if g == fd {
          ReadInStep(img, now, fd, n, Returned(img, files, init, fd));
        }
      case Close(g) =>
    }
  }

  /** The name under which descriptor `fd` was last opened. */
  function LastName(img: Image, files: Files, ops: seq<Op>, fd: nat): Option<seq<byte>>
    requires |img.inodes| > 0
  {
    if ops == [] then None
    else
      var init, last := ops[..|ops| - 1], ops[|ops| - 1];
      if last.Open? && Opened(img, Run(img, files, init), last.fname).1 == fd then Some(last.fname)
      else LastName(img, files, init, fd)
  }

  lemma {:induction false} DescriptorKeepsItsName(img: Image, files: Files, ops: seq<Op>, fd: nat)
    requires GoodDirectory(img) && FreshProcess(files) && MIN_FD <= fd < MAX_FD
    requires Run(img, files, ops)[fd].inUse
    ensures var name, f := LastName(img, files, ops, fd), Run(img, files, ops)[fd];
            && name.Some? && Lookup(img.dentries, name.value).Some?
            && f.inode == Lookup(img.dentries, name.value).value.inode
            && (f.kind.Regular? <==> Lookup(img.dentries, name.value).value.ftype == 2)
  {
    var init, last := ops[..|ops| - 1], ops[|ops| - 1];
    var now := Run(img, files, init);
    match last
    case Open(fname) =>
      OpenDescribesTheFile(img, now, fname);
      OpenTakesLowestSlot(img, now, fname);
      if Opened(img, now, fname).1 != fd {
        FailedOpenIsHarmless(img, now, fname);
        DescriptorKeepsItsName(img, files, init, fd);
      }
    case Read(g, n) =>
      DescriptorKeepsItsName(img, files, init, fd);
    case Close(g) =>
      DescriptorKeepsItsName(img, files, init, fd);
  }

  /** In a directory without entries of unknown type. */
  lemma FailedOpenIsHarmless(img: Image, files: Files, fname: seq<byte>)
    requires GoodDirectory(img)
    ensures Opened(img, files, fname).1 == -1 ==> Opened(img, files, fname).0 == files
  {
  }

  /** What a descriptor of a regular file has returned is a prefix of the file of the
      name under which it was last opened. */
  lemma StreamsFollowNames(img: Image, files: Files, ops: seq<Op>, fd: nat)
    requires GoodDirectory(img) && FreshProcess(files) && MIN_FD <= fd < MAX_FD
    requires Run(img, files, ops)[fd].inUse && Run(img, files, ops)[fd].kind.Regular?
    ensures var name, f := LastName(img, files, ops, fd), Run(img, files, ops)[fd];
            && name.Some? && Lookup(img.dentries, name.value).Some?
            && var i := Lookup(img.dentries, name.value).value.inode;
               && WellFormed(img, i) && f.filePos <= |Content(img, i)|
               && Returned(img, files, ops, fd) == Content(img, i)[..f.filePos]
  {
    StreamsArePrefixes(img, files, ops, fd);
    DescriptorKeepsItsName(img, files, ops, fd);
  }

  /** A read of at least one byte that returns nothing means that the descriptor has
      returned the whole file. */
  lemma EmptyReadMeansComplete(img: Image, files: Files, ops: seq<Op>, fd: nat, n: int)
    requires GoodDirectory(img) && FreshProcess(files) && MIN_FD <= fd < MAX_FD && n > 0
    requires var f := Run(img, files, ops)[fd];
             f.inUse && f.kind.Regular? && AfterRead(img, Run(img, files, ops), fd, n).1 == []
    ensures var f := Run(img, files, ops)[fd];
            WellFormed(img, f.inode) && Returned(img, files, ops, fd) == Content(img, f.inode)
  {
    StreamsArePrefixes(img, files, ops, fd);
    var f := Run(img, files, ops)[fd];
    var c := Content(img, f.inode);
    assert ReadLength(img, f.inode, f.filePos, n) == |AfterRead(img, Run(img, files, ops), fd, n).1|;
    assert c[..|c|] == c;
  }

  // ------------------------------------------------------------ the PCB's own slots

  class Process {
    const img: Image
    const files: array<FileDesc>

    /** `execute`: standard input and output in use, the rest free. */
    constructor (img: Image)
      requires |img.inodes| > 0
      ensures this.img == img && files.Length == MAX_FD && fresh(files) && FreshProcess(files[..])
    {
      this.img := img;
      files := new FileDesc[MAX_FD](i =>
        if i == 0 then FileDesc(true, 0, 0, Stdin)
        else if i == 1 then FileDesc(true, 0, 0, Stdout)
        else FileDesc(false, 0, 0, Failing));
    }

    method OpenFile(fname: seq<byte>) returns (r: int)
      requires files.Length == MAX_FD
      requires forall k :: 0 <= k < |img.dentries| ==> |img.dentries[k].name| == NAME
      requires forall i :: 0 <= i < |fname| ==> fname[i] != 0
      modifies files
      ensures (files[..], r) == Opened(img, old(files[..]), fname)
    {
      var d := ReadDentryByName(img, fname);
      if d.None? {
        return -1;
      }
      var i := MIN_FD;
      while i < MAX_FD
        invariant MIN_FD <= i < MAX_FD && files[..] == old(files[..])
        invariant FreeSlot(files[..], MIN_FD) == FreeSlot(files[..], i)
      {
        if !files[i].inUse {
          files[i] := files[i].(inUse := true, filePos := 0, inode := d.value.inode);
          break;
        }
        if i == MAX_FD - 1 {
          return -1;
        }
        i := i + 1;
      }
      if d.value.ftype == RTC_TYPE {
        files[i] := files[i].(kind := Rtc);
      } else if d.value.ftype == DIR_TYPE {
        files[i] := files[i].(kind := Directory);
      } else if d.value.ftype == REGULAR_FILE {
        files[i] := files[i].(kind := Regular);
      } else {
        assert files[..] == Opened(img, old(files[..]), fname).0;
        return -1;
      }
      assert files[..] == Opened(img, old(files[..]), fname).0;
      return i;
    }

    /** `read`.  A descriptor of a device or a directory reads no file. */
    method ReadFile(fd: int, buf: array<byte>, at: nat, nbytes: int) returns (r: int)
      requires files.Length == MAX_FD && |img.inodes| > 0 && at + (if nbytes > 0 then nbytes else 0) <= buf.Length
      requires 0 <= fd < MAX_FD && files[fd].inUse ==>
                 files[fd].kind.Regular? && WellFormed(img, files[fd].inode)
      modifies files, buf
      ensures files[..] == AfterRead(img, old(files[..]), fd, nbytes).0
      ensures r == -1 <==> fd < 0 || fd >= MAX_FD || nbytes < 0 || !old(files[fd]).inUse
      ensures r != -1 ==> r == |AfterRead(img, old(files[..]), fd, nbytes).1| <= nbytes
      ensures Holds(buf[..], old(buf[..]), at, AfterRead(img, old(files[..]), fd, nbytes).1)
    {
      if fd < 0 || fd >= MAX_FD {
        return -1;
      }
      if nbytes < 0 {
        return -1;
      }
      if !files[fd].inUse {
        return -1;
      }
      r := ReadData(img, files[fd].inode, files[fd].filePos, buf, at, nbytes);
      files[fd] := files[fd].(filePos := files[fd].filePos + r);
    }

    method CloseFile(fd: int) returns (r: int)
      requires files.Length == MAX_FD
      modifies files
      ensures (files[..], r) == Closed(old(files[..]), fd)
    {
      if fd < MIN_FD || fd >= MAX_FD {
        return -1;
      }
      if !files[fd].inUse {
        return -1;
      }
      files[fd] := files[fd].(inUse := false);
      return if files[fd].kind.Failing? then -1 else 0;
    }
  }
}
