/**
 The on-disk file system as values (fs.h, fs.c): the block bitmap, the contents of the blocks and
 the disk inodes; which block holds which part of which file; and the contents of a file.
 */
module FsSpec {
  import opened Words

  const BSIZE: int := 512
  const NDIRECT: int := 12
  const INDIRECT: int := 12
  const NADDRS: int := NDIRECT + 1
  const NINDIRECT: int := BSIZE / 4
  const MAXFILE: int := NDIRECT + NINDIRECT

  type byte = x: int | 0 <= x < 256

  type Block = b: seq<byte> | |b| == BSIZE witness seq(BSIZE, i => 0)

  function Zeros(): (b: Block) {
    seq(BSIZE, i => 0)
  }

  datatype Dinode = Dinode(typ: int, major: int, minor: int, nlink: int, size: nat, addrs: seq<nat>)

  /** bits[b]: block b is in use. */
  datatype Fs = Fs(bits: seq<bool>, data: seq<Block>, inodes: seq<Dinode>)

  // ---------------------------------------------------------------- words of a block

  /** The j-th 32-bit word of a block, little-endian. */
  function Word(b: Block, j: int): (w: nat)
    requires 0 <= j < NINDIRECT
  {
    var b0: int, b1: int, b2: int, b3: int := b[4 * j], b[4 * j + 1], b[4 * j + 2], b[4 * j + 3];
    b0 + 0x100 * b1 + 0x1_0000 * b2 + 0x100_0000 * b3
  }

  function WithWord(b: Block, j: int, w: nat): (r: Block)
    requires 0 <= j < NINDIRECT && w < UINT
  {
    b[4 * j := w % 0x100]
     [4 * j + 1 := w / 0x100 % 0x100]
     [4 * j + 2 := w / 0x1_0000 % 0x100]
     [4 * j + 3 := w / 0x100_0000]
  }

  lemma BytesOfWord(w: nat)
    requires w < UINT
    ensures w / 0x100_0000 < 0x100
    ensures w % 0x100 + 0x100 * (w / 0x100 % 0x100) + 0x1_0000 * (w / 0x1_0000 % 0x100)
      + 0x100_0000 * (w / 0x100_0000) == w
  {
    assert w / 0x1_0000 == w / 0x100 / 0x100;
    assert w / 0x100_0000 == w / 0x1_0000 / 0x100;
  }

  /** Writing one word of a block changes that word and no other. */
  lemma WordWritten(b: Block, j: int, w: nat, k: int)
    requires 0 <= j < NINDIRECT && w < UINT && 0 <= k < NINDIRECT
    ensures Word(WithWord(b, j, w), k) == if k == j then w else Word(b, k)
  {
    BytesOfWord(w);
  }

  lemma WordOfZeros(j: int)
    requires 0 <= j < NINDIRECT
    ensures Word(Zeros(), j) == 0
  {
  }

  // ---------------------------------------------------------------- addresses of a file

  /** Slots of an inode: the direct blocks, the indirect block itself, then the blocks the indirect block lists. */
  const SLOTS: int := NADDRS + NINDIRECT

  /** The slot of the n-th block of a file. */
  function SlotOf(n: int): (s: int)
    requires 0 <= n < MAXFILE
    ensures 0 <= s < SLOTS && s != INDIRECT
  {
    if n < NDIRECT then n else n + 1
  }

  ghost predicate Wf(fs: Fs) {
    && |fs.data| == |fs.bits| && |fs.bits| < UINT
    && (forall i {:trigger fs.inodes[i]} :: 0 <= i < |fs.inodes| ==> |fs.inodes[i].addrs| == NADDRS)
  }

  /** The block address in slot s of inode i; 0 when there is none. */
  ghost function Addr(fs: Fs, i: int, s: int): (a: nat)
    requires Wf(fs) && 0 <= i < |fs.inodes| && 0 <= s < SLOTS
  {
    var addrs := fs.inodes[i].addrs;
    if s < NADDRS then addrs[s]
    else if addrs[INDIRECT] == 0 || addrs[INDIRECT] >= |fs.data| then 0
    else Word(fs.data[addrs[INDIRECT]], s - NADDRS)
  }

  /** Every address in use lies in the data area and is marked in use. */
  ghost predicate Marked(fs: Fs, meta: nat)
    requires Wf(fs)
  {
    forall i, s {:trigger Addr(fs, i, s)} :: 0 <= i < |fs.inodes| && 0 <= s < SLOTS && Addr(fs, i, s) != 0 ==>
      meta <= Addr(fs, i, s) < |fs.bits| && fs.bits[Addr(fs, i, s)]
  }

  /** No block is used twice, by two inodes or twice by one, as data or as indirect block. */
  ghost predicate Unshared(fs: Fs)
    requires Wf(fs)
  {
    forall i, s, j, t {:trigger Addr(fs, i, s), Addr(fs, j, t)} ::
      0 <= i < |fs.inodes| && 0 <= s < SLOTS && 0 <= j < |fs.inodes| && 0 <= t < SLOTS && Addr(fs, i, s) != 0
        && Addr(fs, i, s) == Addr(fs, j, t) ==>
      i == j && s == t
  }

  /** Every free block is all zero on disk, and the metadata blocks are never free. */
  ghost predicate FreeZero(fs: Fs, meta: nat)
    requires Wf(fs)
  {
    && 0 < meta <= |fs.bits|
    && (forall b {:trigger fs.bits[b]} :: 0 <= b < |fs.bits| && !fs.bits[b] ==> meta <= b && fs.data[b] == Zeros())
  }

  ghost predicate Owned(fs: Fs, meta: nat) {
    Wf(fs) && Marked(fs, meta) && Unshared(fs) && FreeZero(fs, meta)
  }

  // ---------------------------------------------------------------- attaching a block

  /** Block b, so far free, is marked in use and put into slot s of inode i. */
  ghost function Attach(fs: Fs, i: int, s: int, b: nat): (r: Fs)
    requires Wf(fs) && 0 <= i < |fs.inodes| && 0 <= s < SLOTS && b < |fs.bits|
    requires s < NADDRS || 0 < fs.inodes[i].addrs[INDIRECT] < |fs.data|
  {
    var marked := fs.(bits := fs.bits[b := true]);
    if s < NADDRS then
      marked.(inodes := fs.inodes[i := fs.inodes[i].(addrs := fs.inodes[i].addrs[s := b])])
    else
      var a := fs.inodes[i].addrs[INDIRECT];
      marked.(data := fs.data[a := WithWord(fs.data[a], s - NADDRS, b)])
  }

  lemma AttachWf(fs: Fs, i: int, s: int, b: nat)
    requires Wf(fs) && 0 <= i < |fs.inodes| && 0 <= s < SLOTS && b < |fs.bits|
    requires s < NADDRS || 0 < fs.inodes[i].addrs[INDIRECT] < |fs.data|
    ensures Wf(Attach(fs, i, s, b))
  {
  }

  /**
   The address map after attaching: only the one slot changes. When an indirect block is attached, the
   128 addresses it lists come into view, and they are all 0 because a free block is zero on disk.
   */
  lemma AttachAddr(fs: Fs, meta: nat, i: int, s: int, b: nat, j: int, t: int)
    requires Owned(fs, meta) && 0 <= i < |fs.inodes| && 0 <= s < SLOTS && b < |fs.bits| && !fs.bits[b]
    requires Addr(fs, i, s) == 0 && (s < NADDRS || 0 < fs.inodes[i].addrs[INDIRECT] < |fs.data|)
    requires 0 <= j < |fs.inodes| && 0 <= t < SLOTS
    ensures Wf(Attach(fs, i, s, b))
    ensures Addr(Attach(fs, i, s, b), j, t) == if (j, t) == (i, s) then b else Addr(fs, j, t)
  {
    AttachWf(fs, i, s, b);
    if NADDRS <= t {
      var a := fs.inodes[j].addrs[INDIRECT];
      assert Addr(fs, j, INDIRECT) == a;
      if s < NADDRS {
        if j == i && s == INDIRECT {
          WordOfZeros(t - NADDRS);
        }
      } else {
        assert Addr(fs, i, INDIRECT) == fs.inodes[i].addrs[INDIRECT];
        if 0 < a < |fs.data| && j == i {
          WordWritten(fs.data[a], s - NADDRS, b, t - NADDRS);
        }
      }
    }
  }

  lemma AttachKeeps(fs: Fs, meta: nat, i: int, s: int, b: nat)
    requires Owned(fs, meta) && 0 <= i < |fs.inodes| && 0 <= s < SLOTS && b < |fs.bits| && !fs.bits[b]
    requires Addr(fs, i, s) == 0 && (s < NADDRS || 0 < fs.inodes[i].addrs[INDIRECT] < |fs.data|)
    ensures Owned(Attach(fs, i, s, b), meta)
  {
    AttachWf(fs, i, s, b);
    var r := Attach(fs, i, s, b);
    AttachMarked(fs, meta, i, s, b);
    forall j, t, k, u | 0 <= j < |r.inodes| && 0 <= t < SLOTS && 0 <= k < |r.inodes| && 0 <= u < SLOTS
      && Addr(r, j, t) != 0 && Addr(r, j, t) == Addr(r, k, u)
      ensures j == k && t == u
    {
      AttachAddr(fs, meta, i, s, b, j, t);
      AttachAddr(fs, meta, i, s, b, k, u);
    }
    AttachFree(fs, meta, i, s, b);
  }

  lemma AttachMarked(fs: Fs, meta: nat, i: int, s: int, b: nat)
    requires Owned(fs, meta) && 0 <= i < |fs.inodes| && 0 <= s < SLOTS && b < |fs.bits| && !fs.bits[b]
    requires Addr(fs, i, s) == 0 && (s < NADDRS || 0 < fs.inodes[i].addrs[INDIRECT] < |fs.data|)
    ensures Wf(Attach(fs, i, s, b)) && Marked(Attach(fs, i, s, b), meta)
  {
    AttachWf(fs, i, s, b);
    var r := Attach(fs, i, s, b);
    forall j, t | 0 <= j < |r.inodes| && 0 <= t < SLOTS && Addr(r, j, t) != 0
      ensures meta <= Addr(r, j, t) < |r.bits| && r.bits[Addr(r, j, t)]
    {
      AttachAddr(fs, meta, i, s, b, j, t);
    }
  }

  lemma AttachFree(fs: Fs, meta: nat, i: int, s: int, b: nat)
    requires Owned(fs, meta) && 0 <= i < |fs.inodes| && 0 <= s < SLOTS && b < |fs.bits| && !fs.bits[b]
    requires Addr(fs, i, s) == 0 && (s < NADDRS || 0 < fs.inodes[i].addrs[INDIRECT] < |fs.data|)
    ensures Wf(Attach(fs, i, s, b)) && FreeZero(Attach(fs, i, s, b), meta)
  {
    AttachWf(fs, i, s, b);
    assert Addr(fs, i, INDIRECT) == fs.inodes[i].addrs[INDIRECT];
  }

  // ---------------------------------------------------------------- contents of a file

  /** The n-th block of file i holds some block exactly for n below the end of the file, len bytes long. */
  ghost predicate Exact(fs: Fs, i: int, len: int)
    requires Wf(fs) && 0 <= i < |fs.inodes|
  {
    && 0 <= len <= MAXFILE * BSIZE
    && (forall n {:trigger Addr(fs, i, SlotOf(n))} :: 0 <= n < MAXFILE ==>
         (Addr(fs, i, SlotOf(n)) != 0 <==> n * BSIZE < len))
    && (fs.inodes[i].addrs[INDIRECT] != 0 <==> NDIRECT * BSIZE < len)
  }

  /** The first len bytes of file i all have a block. */
  ghost predicate Covers(fs: Fs, i: int, len: int)
    requires Wf(fs) && 0 <= i < |fs.inodes|
  {
    && 0 <= len <= MAXFILE * BSIZE
    && (forall n {:trigger Addr(fs, i, SlotOf(n))} :: 0 <= n < MAXFILE && n * BSIZE < len ==>
         Addr(fs, i, SlotOf(n)) != 0)
  }

  /** Byte k of file i. */
  ghost function ByteAt(fs: Fs, i: int, k: int): (c: byte)
    requires Wf(fs) && 0 <= i < |fs.inodes| && 0 <= k < MAXFILE * BSIZE
  {
    var a := Addr(fs, i, SlotOf(k / BSIZE));
    if a < |fs.data| then fs.data[a][k % BSIZE] else 0
  }

  /** The first len bytes of file i. */
  ghost function Bytes(fs: Fs, i: int, len: int): (c: seq<byte>)
    requires Wf(fs) && 0 <= i < |fs.inodes| && 0 <= len <= MAXFILE * BSIZE
    ensures |c| == len && forall k {:trigger c[k]} :: 0 <= k < len ==> c[k] == ByteAt(fs, i, k)
  {
    seq(len, k requires 0 <= k < len => ByteAt(fs, i, k))
  }

  /** There are no holes below the end of a file and no blocks beyond it. */
  ghost predicate NoHoles(fs: Fs)
    requires Wf(fs)
  {
    forall i {:trigger fs.inodes[i]} :: 0 <= i < |fs.inodes| ==> Exact(fs, i, fs.inodes[i].size)
  }

  ghost function Content(fs: Fs, i: int): (c: seq<byte>)
    requires Wf(fs) && 0 <= i < |fs.inodes| && Exact(fs, i, fs.inodes[i].size)
  {
    Bytes(fs, i, fs.inodes[i].size)
  }

  /** Attaching a block changes no byte of any file below its end. */
  lemma AttachBytes(fs: Fs, meta: nat, i: int, s: int, b: nat, j: int, len: int)
    requires Owned(fs, meta) && 0 <= i < |fs.inodes| && 0 <= s < SLOTS && b < |fs.bits| && !fs.bits[b]
    requires Addr(fs, i, s) == 0 && (s < NADDRS || 0 < fs.inodes[i].addrs[INDIRECT] < |fs.data|)
    requires 0 <= j < |fs.inodes| && Covers(fs, j, len)
    ensures Wf(Attach(fs, i, s, b)) && Covers(Attach(fs, i, s, b), j, len)
      && Bytes(Attach(fs, i, s, b), j, len) == Bytes(fs, j, len)
  {
    AttachWf(fs, i, s, b);
    var r := Attach(fs, i, s, b);
    forall n {:trigger Addr(r, j, SlotOf(n))} | 0 <= n < MAXFILE && n * BSIZE < len
      ensures Addr(r, j, SlotOf(n)) != 0
    {
      AttachAddr(fs, meta, i, s, b, j, SlotOf(n));
    }
    forall k | 0 <= k < len
      ensures ByteAt(r, j, k) == ByteAt(fs, j, k)
    {
      var t := SlotOf(k / BSIZE);
      AttachAddr(fs, meta, i, s, b, j, t);
      assert Addr(fs, j, t) != 0;
      assert Addr(fs, i, INDIRECT) == fs.inodes[i].addrs[INDIRECT];
    }
  }
}
