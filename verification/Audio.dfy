/**
 The sound driver's double buffer: a 64 KB DMA buffer of two halves, one played
 while the other waits; each interrupt - a half has been played - refills a half
 from the file.
 */
module Audio {
  import opened Common
  import opened FileSystem
  import opened Descriptors

  const HALF := 32768

  /** Which half (0 or 1) the next interrupt refills. */
  datatype Player = Player(playing: bool, offset: nat, half: nat, dma: seq<byte>)

  predicate Sized(p: Player) { |p.dma| == 2 * HALF && p.half < 2 }

  /** `bytes` written over `dma` from position `at` on. */
  function Overwrite(dma: seq<byte>, at: nat, bytes: seq<byte>): (r: seq<byte>)
    requires at + |bytes| <= |dma|
    ensures |r| == |dma|
  {
    dma[..at] + bytes + dma[at + |bytes|..]
  }

  /** What a read of up to `n` bytes at `offset` returns. */
  function Piece(c: seq<byte>, offset: nat, n: nat): (r: seq<byte>)
    ensures |r| == if offset >= |c| then 0 else Min(n, |c| - offset)
  {
    if offset >= |c| then [] else c[offset..offset + Min(n, |c| - offset)]
  }

  /** `stop` */
  function Stopped(p: Player): Player { p.(playing := false, offset := 0, half := 0) }

  /** `play_music` on a playable file: both halves are filled. */
  function Started(p: Player, c: seq<byte>): (r: Player)
    requires Sized(p)
    ensures Sized(r)
  {
    var bytes := Piece(c, p.offset, 2 * HALF);
    p.(playing := true, offset := p.offset + |bytes|, dma := Overwrite(p.dma, 0, bytes))
  }

  /** `sb16_handler`: refill; a full half moves on to the other one, an empty read
      ends the playback. */
  function Interrupted(p: Player, c: seq<byte>): (r: Player)
    requires Sized(p)
    ensures Sized(r)
  {
    var bytes := Piece(c, p.offset, HALF);
    var filled := p.(offset := p.offset + |bytes|, dma := Overwrite(p.dma, p.half * HALF, bytes));
    if |bytes| == HALF then filled.(half := 1 - p.half)
    else if |bytes| == 0 then Stopped(filled)
    else filled
  }

  /** The player after `n` interrupts of a playback of `c`. */
  function After(p: Player, c: seq<byte>, n: nat): (r: Player)
    requires Sized(p)
    ensures Sized(r)
  {
    if n == 0 then Started(p, c) else Interrupted(After(p, c, n - 1), c)
  }

  /** The `k`-th 32 KB block of a file. */
  function Block(c: seq<byte>, k: nat): seq<byte>
    requires (k + 1) * HALF <= |c|
  {
    c[k * HALF..(k + 1) * HALF]
  }

  function HalfOf(p: Player, h: nat): (r: seq<byte>)
    requires Sized(p) && h < 2
    ensures |r| == HALF
  {
    p.dma[h * HALF..(h + 1) * HALF]
  }

  lemma OverwrittenHalves(p: Player, h: nat, bytes: seq<byte>)
    requires Sized(p) && h < 2 && |bytes| <= HALF
    ensures var q := p.(dma := Overwrite(p.dma, h * HALF, bytes));
            && HalfOf(q, 1 - h) == HalfOf(p, 1 - h)
            && (|bytes| == HALF ==> HalfOf(q, h) == bytes)
  {
    var q := p.(dma := Overwrite(p.dma, h * HALF, bytes));
    assert HalfOf(q, 1 - h) == HalfOf(p, 1 - h);
    if |bytes| == HALF {
      assert HalfOf(q, h) == bytes;
    }
  }

  /** Blocks `n` and `n + 1` are in the buffer, block `k` in half `k % 2`, and half
      `n % 2` is next to be refilled. */
  predicate Buffers(q: Player, c: seq<byte>, n: nat) {
    && Sized(q) && (n + 2) * HALF <= |c|
    && q.playing && q.offset == (n + 2) * HALF && q.half == n % 2
    && HalfOf(q, n % 2) == Block(c, n)
    && HalfOf(q, (n + 1) % 2) == Block(c, n + 1)
  }

  lemma StartedBuffers(p: Player, c: seq<byte>)
    requires Sized(p) && p.offset == 0 && p.half == 0 && 2 * HALF <= |c|
    ensures Buffers(Started(p, c), c, 0)
  {
    var q := Started(p, c);
    assert HalfOf(q, 0) == Block(c, 0);
    assert HalfOf(q, 1) == Block(c, 1);
  }

  /** A refill goes to the half whose block has just been played and leaves the
      other half, about to be played, alone. */
  lemma RefillHitsPlayedHalf(q: Player, c: seq<byte>, n: nat)
    requires Buffers(q, c, n)
    ensures HalfOf(Interrupted(q, c), (n + 1) % 2) == Block(c, n + 1)
    ensures (n + 3) * HALF <= |c| ==> HalfOf(Interrupted(q, c), n % 2) == Block(c, n + 2)
  {
    OverwrittenHalves(q, n % 2, Piece(c, q.offset, HALF));
    assert 1 - n % 2 == (n + 1) % 2;
  }

  /** A read that does not fill the half stays at that half and leaves its rest as it was;
      playback goes on. */
  lemma PartialRefillStays(q: Player, c: seq<byte>, k: nat)
    requires Sized(q) && q.offset < |c| < q.offset + HALF && k < 2 * HALF
    ensures var r, at := Interrupted(q, c), q.half * HALF;
            && r.playing == q.playing && r.half == q.half && r.offset == |c|
            && r.dma[k] == if at <= k < at + |c| - q.offset then c[q.offset + k - at] else q.dma[k]
  {
  }

  lemma InterruptedBuffers(q: Player, c: seq<byte>, n: nat)
    requires Buffers(q, c, n) && (n + 3) * HALF <= |c|
    ensures Buffers(Interrupted(q, c), c, n + 1)
  {
    RefillHitsPlayedHalf(q, c, n);
    assert (n + 2) % 2 == n % 2;
  }

  /** Double buffering: as long as reads are full, after `n` interrupts the offset is
      `n + 2` blocks and the two halves hold blocks `n` and `n + 1`. */
  lemma {:induction false} DoubleBuffer(p: Player, c: seq<byte>, n: nat)
    requires Sized(p) && p.offset == 0 && p.half == 0 && (n + 2) * HALF <= |c|
    ensures Buffers(After(p, c, n), c, n)
  {
    if n == 0 {
      StartedBuffers(p, c);
    } else {
      DoubleBuffer(p, c, n - 1);
      OneInterruptMore(p, c, n - 1);
    }
  }

  lemma OneInterruptMore(p: Player, c: seq<byte>, n: nat)
    requires Sized(p) && Buffers(After(p, c, n), c, n) && (n + 3) * HALF <= |c|
    ensures Buffers(After(p, c, n + 1), c, n + 1)
  {
    InterruptedBuffers(After(p, c, n), c, n);
  }

  /** How many interrupts a playback takes. */
  function Interrupts(size: nat): nat {
    if size <= 2 * HALF then 1 else (size - 2 * HALF + HALF - 1) / HALF + 1
  }

  /** Every playback stops: it goes on for exactly so many interrupts, and the last
      one resets the driver. */
  lemma {:induction false} PlaybackStops(p: Player, c: seq<byte>, n: nat)
    requires Sized(p) && p.offset == 0 && p.half == 0 && n <= Interrupts(|c|)
    ensures After(p, c, n).playing <==> n < Interrupts(|c|)
    ensures n < Interrupts(|c|) ==> After(p, c, n).offset == Min((n + 2) * HALF, |c|)
    ensures n == Interrupts(|c|) ==> After(p, c, n).offset == 0 && After(p, c, n).half == 0
  {
    if n > 0 {
      PlaybackStops(p, c, n - 1);
    }
  }

  /** What is heard: between interrupts `k` and `k + 1` the card plays half `k % 2`. */
  function Heard(p: Player, c: seq<byte>, n: nat): seq<byte>
    requires Sized(p)
  {
    if n == 0 then [] else Heard(p, c, n - 1) + HalfOf(After(p, c, n - 1), (n - 1) % 2)
  }

  /** After `k` interrupts the half about to be played holds block `k`. */
  lemma PlayedBlock(p: Player, c: seq<byte>, k: nat)
    requires Sized(p) && p.offset == 0 && p.half == 0 && (k + 1) * HALF <= |c| && 2 * HALF <= |c|
    ensures HalfOf(After(p, c, k), k % 2) == Block(c, k)
  {
    if k == 0 {
      DoubleBuffer(p, c, 0);
    } else {
      PlayedAfterRefill(p, c, k - 1);
    }
  }

  lemma PlayedAfterRefill(p: Player, c: seq<byte>, n: nat)
    requires Sized(p) && p.offset == 0 && p.half == 0 && (n + 2) * HALF <= |c|
    ensures HalfOf(After(p, c, n + 1), (n + 1) % 2) == Block(c, n + 1)
  {
    DoubleBuffer(p, c, n);
    RefillHitsPlayedHalf(After(p, c, n), c, n);
  }

  lemma HeardOneMore(p: Player, c: seq<byte>, n: nat, played: seq<byte>)
    requires Sized(p) && n > 0 && HalfOf(After(p, c, n - 1), (n - 1) % 2) == played
    ensures Heard(p, c, n) == Heard(p, c, n - 1) + played
  {
  }

  lemma {:induction false} HeardIsPrefix(p: Player, c: seq<byte>, n: nat)
    requires Sized(p) && p.offset == 0 && p.half == 0 && n * HALF <= |c| && 2 * HALF <= |c|
    ensures Heard(p, c, n) == c[..n * HALF]
  {
    if n == 0 {
    } else {
      HeardIsPrefix(p, c, n - 1);
      PlayedBlock(p, c, n - 1);
      HeardOneMore(p, c, n, Block(c, n - 1));
      PrefixGrows(c, n, Heard(p, c, n - 1), Heard(p, c, n));
    }
  }

  lemma PrefixGrows(c: seq<byte>, n: nat, before: seq<byte>, after: seq<byte>)
    requires n > 0 && n * HALF <= |c| && before == c[..(n - 1) * HALF] && after == before + Block(c, n - 1)
    ensures after == c[..n * HALF]
  {
  }

  /** A playback of at least 64 KB plays the file in order, and all of it except its
      last block: the part read last - 1 to 32768 bytes - is cut off by `stop`. */
  lemma WholeFileButLastBlockIsHeard(p: Player, c: seq<byte>)
    requires Sized(p) && p.offset == 0 && p.half == 0 && 0x1_0000 <= |c|
    ensures Heard(p, c, Interrupts(|c|)) == c[..0x8000 * ((|c| - 1) / 0x8000)]
    ensures 1 <= |c| - |Heard(p, c, Interrupts(|c|))| <= 0x8000
  {
    assert Interrupts(|c|) == (|c| - 1) / HALF;
    HeardIsPrefix(p, c, Interrupts(|c|));
  }

  /** A shorter file fills only part of the buffer.  One half is played: the file's
      first 32768 bytes, or all of it and then whatever the buffer held before. */
  lemma ShortFileIsHalfHeard(p: Player, c: seq<byte>)
    requires Sized(p) && p.offset == 0 && p.half == 0 && |c| <= 2 * HALF
    ensures Heard(p, c, Interrupts(|c|)) == (c + p.dma[|c|..])[..HALF]
  {
    FirstHeard(p, c);
    ShortFileStarted(p, c);
  }

  lemma FirstHeard(p: Player, c: seq<byte>)
    requires Sized(p)
    ensures Heard(p, c, 1) == HalfOf(Started(p, c), 0)
  {
    assert Heard(p, c, 0) == [] && After(p, c, 0) == Started(p, c);
    assert [] + HalfOf(Started(p, c), 0) == HalfOf(Started(p, c), 0);
  }

  lemma ShortFileStarted(p: Player, c: seq<byte>)
    requires Sized(p) && p.offset == 0 && |c| <= 2 * HALF
    ensures HalfOf(Started(p, c), 0) == (c + p.dma[|c|..])[..HALF]
  {
    assert Piece(c, 0, 2 * HALF) == c;
    assert Overwrite(p.dma, 0, c) == c + p.dma[|c|..];
  }

  // ---------------------------------------------------------- the driver's own state

  /** 'R', 'I', 'F', 'F' */
  const RIFF: seq<byte> := [0x52, 0x49, 0x46, 0x46]

  class Sb16 {
    const img: Image
    const dma: array<byte>
    var isPlaying: bool
    var currentOffset: nat
    var curBlock: nat
    var inode: nat

    constructor (img: Image)
      requires |img.inodes| > 0
      ensures this.img == img && Valid() && fresh(dma)
      ensures !isPlaying && currentOffset == 0 && curBlock == 0
    {
      this.img := img;
      dma := new byte[2 * HALF](_ => 0);
      isPlaying, currentOffset, curBlock, inode := false, 0, 0, 0;
    }

    predicate Valid()
      reads this
    {
      dma.Length == 2 * HALF && curBlock < 2 && |img.inodes| > 0
    }

    function ThePlayer(): (p: Player)
      requires Valid()
      reads this, dma
      ensures Sized(p)
    {
      Player(isPlaying, currentOffset, curBlock, dma[..])
    }

    method ReadInto(at: nat, n: nat) returns (r: nat)
      requires Valid() && WellFormed(img, inode) && at + n <= 2 * HALF
      modifies dma
      ensures r == |Piece(Content(img, inode), currentOffset, n)| <= n
      ensures dma[..] == Overwrite(old(dma[..]), at, Piece(Content(img, inode), currentOffset, n))
    {
      r := ReadData(img, inode, currentOffset, dma, at, n);
      assert dma[..] == Overwrite(old(dma[..]), at, Piece(Content(img, inode), currentOffset, n));
    }

    /** `proc` is the calling process: each start opens a descriptor there, and no
        member of the driver closes it.  `held` is what the array for the magic number
        holds before a file, perhaps a shorter one, is read into it. */
    method PlayMusic(proc: Process, filename: seq<byte>, held: seq<byte>) returns (r: int)
      requires Valid() && proc.img == img && proc.files.Length == MAX_FD
      requires forall k :: 0 <= k < |img.dentries| ==> |img.dentries[k].name| == NAME
      requires forall i :: 0 <= i < |filename| ==> filename[i] != 0
      requires Lookup(img.dentries, filename).Some? ==>
                 WellFormed(img, Lookup(img.dentries, filename).value.inode)
      requires |held| == |RIFF|
      modifies this, dma, proc.files
      ensures Valid()
      ensures r == if !old(isPlaying) && Lookup(img.dentries, filename).None? then -1 else 0
      ensures old(isPlaying) || Lookup(img.dentries, filename).None? ==>
                ThePlayer() == old(ThePlayer()) && inode == old(inode) && proc.files[..] == old(proc.files[..])
      ensures !old(isPlaying) && Lookup(img.dentries, filename).Some? ==>
                && inode == Lookup(img.dentries, filename).value.inode
                && var c := Content(img, inode);
                   if Overwrite(held, 0, Piece(c, 0, |RIFF|)) == RIFF then
                     && ThePlayer() == Started(old(ThePlayer()), c)
                     && proc.files[..] == Opened(img, old(proc.files[..]), filename).0
                   else ThePlayer() == old(ThePlayer()) && proc.files[..] == old(proc.files[..])
    {
      if isPlaying {
        return 0;
      }
      var d := ReadDentryByName(img, filename);
      if d.None? {
        return -1;
      }
      inode := d.value.inode;
      var magic := new byte[4](i requires 0 <= i < |held| => held[i]);
      assert magic[..] == held;
      var _ := ReadData(img, inode, 0, magic, 0, 4);
      assert magic[..] == Overwrite(held, 0, Piece(Content(img, inode), 0, 4));
      if magic[..] != RIFF {
        return 0;
      }
      var _ := proc.OpenFile(filename);
      var bytesRead := ReadInto(0, 2 * HALF);
      isPlaying := true;
      currentOffset := currentOffset + bytesRead;
      return 0;
    }

    method Stop()
      requires Valid()
      modifies this
      ensures Valid() && ThePlayer() == Stopped(old(ThePlayer())) && inode == 0
    {
      isPlaying := false;
      inode := 0;
      currentOffset := 0;
      curBlock := 0;
    }

    method Sb16Handler()
      requires Valid() && WellFormed(img, inode)
      modifies this, dma
      ensures Valid() && ThePlayer() == Interrupted(old(ThePlayer()), Content(img, old(inode)))
      ensures isPlaying ==> inode == old(inode)
    {
      var bytesRead := ReadInto(curBlock * HALF, HALF);
      currentOffset := currentOffset + bytesRead;
      if bytesRead == HALF {
        if curBlock == 0 {
          curBlock := 1;
        } else {
          curBlock := 0;
        }
      } else if bytesRead == 0 {
        Stop();
      }
    }
  }
}
