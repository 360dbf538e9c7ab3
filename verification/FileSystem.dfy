/**
 The read-only file system image: a directory, index nodes and 4 KB data blocks.
 `read_data` gathers a byte range from scattered blocks; it is proved to return a
 plain slice of the file's contents.
 */
module FileSystem {
  import opened Common

  const BLOCK := 4096
  const MAX_BLOCKS := 1023     // block numbers in one index node
  const NAME := 32

  datatype Inode = Inode(size: nat, blocks: seq<nat>)

  /** `name` is the 32-byte field of a directory entry. */
  datatype Dentry = Dentry(name: seq<byte>, ftype: nat, inode: nat)

  datatype Image = Image(dentries: seq<Dentry>, inodes: seq<Inode>, data: seq<seq<byte>>)

  /** Data blocks a file of this size occupies. */
  function BlocksOf(size: nat): nat { (size + BLOCK - 1) / BLOCK }

  /** A file whose block list is long enough and stays within the image; the last
      index node of an image is never readable. */
  predicate WellFormed(img: Image, i: nat) {
    && i + 1 < |img.inodes|
    && var f := img.inodes[i];
       && |f.blocks| == MAX_BLOCKS
       && f.size <= MAX_BLOCKS * BLOCK
       && forall k :: 0 <= k < BlocksOf(f.size) ==>
            f.blocks[k] < |img.data| && |img.data[f.blocks[k]]| == BLOCK
  }

  /** The first `n` blocks of a file, one after the other. */
  function Joined(img: Image, f: Inode, n: nat): seq<byte>
    requires n <= |f.blocks| && forall k :: 0 <= k < n ==> f.blocks[k] < |img.data|
  {
    if n == 0 then [] else Joined(img, f, n - 1) + img.data[f.blocks[n - 1]]
  }

  lemma {:induction false} JoinedAt(img: Image, f: Inode, n: nat)
    requires n <= |f.blocks|
    requires forall k :: 0 <= k < n ==> f.blocks[k] < |img.data| && |img.data[f.blocks[k]]| == BLOCK
    ensures |Joined(img, f, n)| == n * BLOCK
    ensures forall i :: 0 <= i < n * BLOCK ==>
              Joined(img, f, n)[i] == img.data[f.blocks[i / BLOCK]][i % BLOCK]
  {
    if n > 0 {
      JoinedAt(img, f, n - 1);
    }
  }

  /** The contents of a file. */
  function Content(img: Image, i: nat): (c: seq<byte>)
    requires WellFormed(img, i)
    ensures |c| == img.inodes[i].size
  {
    var f := img.inodes[i];
    JoinedAt(img, f, BlocksOf(f.size));
    Joined(img, f, BlocksOf(f.size))[..f.size]
  }

  /** A range within one block. */
  lemma ContentInBlock(img: Image, i: nat, p: nat, n: nat)
    requires WellFormed(img, i) && p + n <= img.inodes[i].size && 0 < n
    requires p % BLOCK + n <= BLOCK
    ensures p / BLOCK < BlocksOf(img.inodes[i].size)
    ensures Content(img, i)[p..p + n]
            == img.data[img.inodes[i].blocks[p / BLOCK]][p % BLOCK..p % BLOCK + n]
  {
    var f := img.inodes[i];
    JoinedAt(img, f, BlocksOf(f.size));
    var block := img.data[f.blocks[p / BLOCK]];
    var c := Content(img, i);
    var x, y := c[p..p + n], block[p % BLOCK..p % BLOCK + n];
    forall k | 0 <= k < n
      ensures x[k] == y[k]
    {
      assert (p + k) / BLOCK == p / BLOCK && (p + k) % BLOCK == p % BLOCK + k;
      assert c[p + k] == Joined(img, f, BlocksOf(f.size))[p + k];
    }
  }

  /** Byte by byte: the blocks of 4096 bytes in the order of the index node. */
  lemma ContentAt(img: Image, i: nat, p: nat)
    requires WellFormed(img, i) && p < img.inodes[i].size
    ensures p / 4096 < |img.inodes[i].blocks| && img.inodes[i].blocks[p / 4096] < |img.data|
    ensures var block := img.data[img.inodes[i].blocks[p / 4096]];
            |block| == 4096 && Content(img, i)[p] == block[p % 4096]
  {
    JoinedAt(img, img.inodes[i], BlocksOf(img.inodes[i].size));
  }

  /** Contents depend on the bytes in the blocks, not on where the blocks sit. */
  lemma ContentIgnoresPlacement(a: Image, b: Image, i: nat, j: nat)
    requires WellFormed(a, i) && WellFormed(b, j) && a.inodes[i].size == b.inodes[j].size
    requires forall k :: 0 <= k < BlocksOf(a.inodes[i].size) ==>
               a.data[a.inodes[i].blocks[k]] == b.data[b.inodes[j].blocks[k]]
    ensures Content(a, i) == Content(b, j)
  {
    JoinedIgnoresPlacement(a, b, a.inodes[i], b.inodes[j], BlocksOf(a.inodes[i].size));
  }

  lemma {:induction false} JoinedIgnoresPlacement(a: Image, b: Image, f: Inode, g: Inode, n: nat)
    requires n <= |f.blocks| && n <= |g.blocks|
    requires forall k :: 0 <= k < n ==> f.blocks[k] < |a.data| && g.blocks[k] < |b.data|
    requires forall k :: 0 <= k < n ==> a.data[f.blocks[k]] == b.data[g.blocks[k]]
    ensures Joined(a, f, n) == Joined(b, g, n)
  {
    if n > 0 {
      JoinedIgnoresPlacement(a, b, f, g, n - 1);
    }
  }

  /** What `read_data` promises to return. */
  function ReadLength(img: Image, i: nat, offset: nat, length: nat): (r: int)
    requires |img.inodes| > 0
  {
    if i + 1 >= |img.inodes| then -1
    else if offset >= img.inodes[i].size then 0
    else Min(length, img.inodes[i].size - offset)
  }

  /** For a file, that is as much as was asked for and is there: the greatest count that
      exceeds neither. */
  lemma ReadLengthIsGreatest(img: Image, i: nat, offset: nat, length: nat, n: nat)
    requires WellFormed(img, i)
    ensures var r := ReadLength(img, i, offset, length);
            && 0 <= r <= length && (r > 0 ==> offset + r <= img.inodes[i].size)
            && (n <= length && offset + n <= img.inodes[i].size ==> n <= r)
  {
  }

  /** `buf` holds `bytes` from position `at` on and is otherwise as it was. */
  ghost predicate Holds(now: seq<byte>, was: seq<byte>, at: nat, bytes: seq<byte>) {
    && |now| == |was| && at + |bytes| <= |was|
    && forall k :: 0 <= k < |was| ==>
         now[k] == if at <= k < at + |bytes| then bytes[k - at] else was[k]
  }

  /** `memcpy` out of a block. */
  method CopyBytes(buf: array<byte>, at: nat, block: seq<byte>, from: nat, n: nat)
    requires at + n <= buf.Length && from + n <= |block|
    modifies buf
    ensures Holds(buf[..], old(buf[..]), at, block[from..from + n])
  {
    var k := 0;
    while k < n
      invariant 0 <= k <= n
      invariant Holds(buf[..], old(buf[..]), at, block[from..from + k])
    {
      buf[at + k] := block[from + k];
      k := k + 1;
    }
  }

  /** The next piece of a file, copied out of its block. */
  lemma HoldsMore(img: Image, i: nat, offset: nat, done: nat, n: nat,
                  was: seq<byte>, before: seq<byte>, now: seq<byte>, at: nat)
    requires WellFormed(img, i) && offset + done + n <= img.inodes[i].size
    requires (offset + done) % BLOCK == 0 && 0 < n <= BLOCK
    requires Holds(before, was, at, Content(img, i)[offset..offset + done])
    requires (offset + done) / BLOCK < BlocksOf(img.inodes[i].size)
    requires Holds(now, before, at + done, img.data[img.inodes[i].blocks[(offset + done) / BLOCK]][0..n])
    ensures Holds(now, was, at, Content(img, i)[offset..offset + done + n])
  {
    ContentInBlock(img, i, offset + done, n);
    var c := Content(img, i);
    var front, more := c[offset..offset + done], c[offset + done..offset + done + n];
    assert c[offset..offset + done + n] == front + more;
    HoldsBoth(was, before, now, at, front, more);
  }

  lemma HoldsBoth(was: seq<byte>, before: seq<byte>, now: seq<byte>, at: nat, front: seq<byte>, more: seq<byte>)
    requires Holds(before, was, at, front) && Holds(now, before, at + |front|, more)
    ensures Holds(now, was, at, front + more)
  {
  }

  method ReadData(img: Image, i: nat, offset: nat, buf: array<byte>, at: nat, length: nat) returns (r: int)
    requires |img.inodes| > 0 && (i + 1 < |img.inodes| ==> WellFormed(img, i))
    requires at + ReadLength(img, i, offset, length) <= buf.Length && at <= buf.Length
    modifies buf
    ensures r == ReadLength(img, i, offset, length)
    ensures r <= 0 ==> buf[..] == old(buf[..])
    ensures r > 0 ==> Holds(buf[..], old(buf[..]), at, Content(img, i)[offset..offset + r])
  {
    if i >= |img.inodes| - 1 {
      return -1;
    }
    var f := img.inodes[i];
    if offset >= f.size {
      return 0;
    }
    var total := if f.size - offset < length then f.size - offset else length;
    var index := offset / BLOCK;
    var start := offset % BLOCK;
    var block := f.blocks[index];
    if block > |img.data| {
      return -1;
    }
    if BLOCK - start >= total {
      if total > 0 { ContentInBlock(img, i, offset, total); }
      CopyBytes(buf, at, img.data[block], start, total);
      return total;
    }
    ContentInBlock(img, i, offset, BLOCK - start);
    CopyBytes(buf, at, img.data[block], start, BLOCK - start);
    var ok := GatherRest(img, i, offset, buf, at, total, old(buf[..]));
    if !ok {
      return -1;
    }
    return total;
  }

  /** The loop of `read_data` over the blocks after the first. */
  method GatherRest(img: Image, i: nat, offset: nat, buf: array<byte>, at: nat, total: nat, ghost was: seq<byte>)
    returns (ok: bool)
    requires WellFormed(img, i) && offset + total <= img.inodes[i].size
    requires BLOCK - offset % BLOCK < total && at + total <= buf.Length
    requires Holds(buf[..], was, at, Content(img, i)[offset..offset + BLOCK - offset % BLOCK])
    modifies buf
    ensures ok && Holds(buf[..], was, at, Content(img, i)[offset..offset + total])
  {
    var blocks := img.inodes[i].blocks;
    var index := offset / BLOCK;
    ghost var done := BLOCK - offset % BLOCK;
    var next := at + BLOCK - offset % BLOCK;
    var left := total - (BLOCK - offset % BLOCK);
    while left > 0
      invariant 0 < done <= total && left == total - done && next == at + done
      invariant left > 0 ==> (offset + done) % BLOCK == 0 && index == (offset + done) / BLOCK - 1
      invariant Holds(buf[..], was, at, Content(img, i)[offset..offset + done])
    {
      ghost var before := buf[..];
      if left > BLOCK {
        left := left - BLOCK;
        index := index + 1;
        if blocks[index] > |img.data| {
          return false;
        }
        CopyBytes(buf, next, img.data[blocks[index]], 0, BLOCK);
        HoldsMore(img, i, offset, done, BLOCK, was, before, buf[..], at);
        next := next + BLOCK;
        done := done + BLOCK;
      } else {
        index := index + 1;
        CopyBytes(buf, next, img.data[blocks[index]], 0, left);
        HoldsMore(img, i, offset, done, left, was, before, buf[..], at);
        next := next + left;
        done := done + left;
        left := 0;
      }
    }
    return true;
  }
}
