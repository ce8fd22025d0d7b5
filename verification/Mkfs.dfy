/** The image builder (mkfs.c): it allocates blocks by counting up, and its images start every run of the kernel. */
module MkfsImage {
  import opened Options
  import opened Words
  import opened FsSpec
  import opened FsWrite
  import opened FileSystems
  import opened FsRuns

  const IPB: int := 8

  /** size is a C int. */
  const INT: int := 0x8000_0000

  /** IBLOCK and BBLOCK of fs.h: the block of dinode i, and of the bitmap bit of block b. */
  function Iblock(i: nat): int {
    i / IPB + 2
  }

  function Bblock(b: nat, ninodes: nat): int {
    b / BPB + ninodes / IPB + 3
  }

  /** Behind the boot block and the superblock, dinodes and bitmap have places of their own below the data blocks. */
  lemma LayoutDisjoint(i: nat, j: nat, b: nat, c: nat, ninodes: nat, size: nat)
    requires i < ninodes && j < ninodes && b < size && c < size
    ensures 1 < Iblock(i) < Bblock(b, ninodes) < ninodes / IPB + 3 + (size / BPB + 1)
    ensures Iblock(i) == Iblock(j) && i % IPB == j % IPB ==> i == j
    ensures Bblock(b, ninodes) == Bblock(c, ninodes) && b % BPB == c % BPB ==> b == c
  {
    assert i == i / IPB * IPB + i % IPB && j == j / IPB * IPB + j % IPB;
    assert b == b / BPB * BPB + b % BPB && c == c / BPB * BPB + c % BPB;
  }

  /** The bitmap that mkfs writes at the end: exactly the blocks below used. */
  function Bump(n: nat, used: int): (bits: seq<bool>)
    ensures |bits| == n && forall b {:trigger bits[b]} :: 0 <= b < n ==> (bits[b] <==> b < used)
  {
    seq(n, b requires 0 <= b < n => b < used)
  }

  /** Counting up is what the kernel's allocator would do: the lowest clear bit is the counter. */
  lemma BumpLowest(n: nat, used: nat)
    requires used < n
    ensures Lowest(Bump(n, used), 0) == used
    ensures Bump(n, used)[used := true] == Bump(n, used + 1)
  {
    assert !Bump(n, used)[used];
  }

  class Mkfs {
    const ninodes: nat
    ghost const meta: nat
    var image: seq<Block>
    var dinodes: seq<Dinode>
    var freeblock: nat
    var usedblocks: nat
    var freeinode: nat

    ghost predicate Valid()
      reads this
    {
      usedblocks == freeblock <= |image| < INT
    }

    ghost function Abs(): (fs: Fs)
      reads this
    {
      Fs(Bump(|image|, freeblock), image, dinodes)
    }

    ghost function With(inum: int, din: Dinode): (fs: Fs)
      requires 0 <= inum < |dinodes|
      reads this
    {
      Fs(Bump(|image|, freeblock), image, dinodes[inum := din])
    }

    /** The start of main: a zeroed image, with the boot block, superblock, inodes and bitmap set aside. */
    constructor (nblocks: nat, ninodes: nat, size: nat)
      requires size < INT && nblocks + (ninodes / IPB + 3 + (size / BPB + 1)) == size
      ensures Valid() && Sound(Abs(), meta) && meta == ninodes / IPB + 3 + (size / BPB + 1)
      ensures |image| == size && |dinodes| == ninodes && freeinode == 1 && freeblock == meta
    {
      this.ninodes := ninodes;
      meta := ninodes / IPB + 3 + (size / BPB + 1);
      usedblocks, freeblock := ninodes / IPB + 3 + (size / BPB + 1), ninodes / IPB + 3 + (size / BPB + 1);
      image := seq(size, b => Zeros());
      dinodes := seq(ninodes, i => Cleared(0));
      freeinode := 1;
      new;
      EmptyImage(Abs(), meta);
    }

    /** ialloc: the next inode, with one link. */
    method Ialloc(typ: int) returns (inum: int)
      requires Valid() && Sound(Abs(), meta) && freeinode < |dinodes|
      modifies this`dinodes, this`freeinode
      ensures Valid() && Sound(Abs(), meta)
      ensures inum == old(freeinode) && freeinode == inum + 1
      ensures dinodes == old(dinodes)[inum := Cleared(typ).(nlink := 1)]
    {
      hide Sound, Bump;
      inum := freeinode;
      freeinode := freeinode + 1;
      ghost var fs := Abs();
      ClearedKeeps(fs, meta, inum, typ);
      var din := Cleared(typ).(nlink := 1);
      UpdateKeeps(fs.(inodes := fs.inodes[inum := Cleared(typ)]), meta, inum, din);
      UpdateTwice(dinodes, inum, Cleared(typ), din);
      dinodes := dinodes[inum := din];
    }

    /** The next block goes into slot s of the inode being written; false when the image is full. */
    method Take(inum: int, din: Dinode, s: int) returns (ok: bool, r: Dinode)
      requires Valid() && 0 <= inum < |dinodes| && |din.addrs| == NADDRS && Owned(With(inum, din), meta)
      requires 0 <= s < SLOTS && Addr(With(inum, din), inum, s) == 0
      requires s < NADDRS || 0 < din.addrs[INDIRECT] < |image|
      modifies this`freeblock, this`usedblocks, this`image
      ensures Valid() && |image| == |old(image)| && |r.addrs| == NADDRS
      ensures r == din.(addrs := r.addrs)
      ensures old(freeblock) <= freeblock <= old(freeblock) + 1
      ensures ok <==> Grown(old(With(inum, din)), inum, s).Some?
      ensures !ok ==> freeblock == |image|
      ensures ok ==>
        Grown(old(With(inum, din)), inum, s) == Some(With(inum, r)) && Wf(With(inum, r))
        && old(freeblock) == Addr(With(inum, r), inum, s)
    {
      hide Marked, Unshared, FreeZero, Bump;
      r := din;
      if freeblock == |image| {
        FullImage(|image|);
        return false, r;
      }
      ghost var fs := With(inum, din);
      BumpLowest(|image|, freeblock);
      AttachAddr(fs, meta, inum, s, freeblock, inum, s);
      if s < NADDRS {
        r := din.(addrs := din.addrs[s := freeblock]);
        UpdateTwice(dinodes, inum, din, r);
      } else {
        var a := din.addrs[INDIRECT];
        image := image[a := WithWord(image[a], s - NADDRS, freeblock)];
      }
      freeblock, usedblocks := freeblock + 1, usedblocks + 1;
      ok := true;
    }

    /** The part of iappend that finds the block for position fbn, allocating it if need be. */
    method MapBlock(inum: int, din: Dinode, fbn: int) returns (ok: bool, r: Dinode, x: int)
      requires Valid() && 0 <= inum < |dinodes| && |din.addrs| == NADDRS && Owned(With(inum, din), meta)
        && 0 <= fbn < MAXFILE
      modifies this`freeblock, this`usedblocks, this`image
      ensures Valid() && |image| == |old(image)| && |r.addrs| == NADDRS
      ensures r == din.(addrs := r.addrs)
      ensures old(freeblock) <= freeblock <= old(freeblock) + 2
      ensures ok ==>
        Mapped(old(With(inum, din)), inum, fbn) == Some(With(inum, r)) && Wf(With(inum, r))
        && x == Addr(With(inum, r), inum, SlotOf(fbn))
      ensures !ok ==> Mapped(old(With(inum, din)), inum, fbn).None? && freeblock == |image|
    {
      hide Bump, Marked, Unshared, FreeZero, Grown, SameElsewhere;
      ghost var fs := With(inum, din);
      r := din;
      if fbn < NDIRECT {
        if din.addrs[fbn] == 0 {
          GrownKeeps(fs, meta, inum, fbn);
          ok, r := Take(inum, din, fbn);
          if !ok {
            return false, r, NONE;
          }
        }
        return true, r, r.addrs[fbn];
      }
      assert Addr(fs, inum, INDIRECT) == din.addrs[INDIRECT];
      if din.addrs[INDIRECT] == 0 {
        GrownKeeps(fs, meta, inum, INDIRECT);
        ok, r := Take(inum, din, INDIRECT);
        if !ok {
          return false, r, NONE;
        }
      }
      ghost var f := With(inum, r);
      IndirectInRange(f, meta, inum);
      x := Word(image[r.addrs[INDIRECT]], fbn - NDIRECT);
      if x == 0 {
        GrownKeeps(f, meta, inum, SlotOf(fbn));
        x := freeblock;
        ok, r := Take(inum, r, SlotOf(fbn));
        if !ok {
          return false, r, NONE;
        }
      }
      return true, r, x;
    }

    /**
     iappend: data goes to the end of the file, as the kernel's writei at its end would put it; false when the
     image is full or the file too long.
     */
    method Iappend(inum: int, xp: seq<byte>) returns (ok: bool)
      requires Valid() && 0 <= inum < |dinodes| && Sound(Abs(), meta)
      modifies this`freeblock, this`usedblocks, this`image, this`dinodes
      ensures Valid() && |image| == |old(image)|
      ensures ok ==> Sound(Abs(), meta) && WriteOk(old(Abs()), Abs(), meta, inum, old(dinodes[inum].size), xp)
      ensures ok <==>
        Legal(old(Abs()), Write(inum, old(dinodes[inum].size), xp))
        && Did(old(Abs()), Write(inum, old(dinodes[inum].size), xp)).Some?
      ensures ok ==> Did(old(Abs()), Write(inum, old(dinodes[inum].size), xp)) == Some(Abs())
      ensures !ok ==> freeblock == |image| || MAXFILE * BSIZE < old(dinodes[inum].size) + |xp|
      ensures freeblock <= old(freeblock) + 2 * Rounds(old(dinodes[inum].size), |xp|)
    {
      hide Bump, Marked, Unshared, FreeZero, Exact, Addr, SlotOf, OthersSame, ChunkOk, WriteOk, Mapped, Written,
        ChunkWritten, Rounds;
      var din := dinodes[inum];
      var off, p := din.size, 0;
      ghost var fs, len := Abs(), off;
      assert dinodes[inum := din] == dinodes;
      assert fs == With(inum, din);
      ExactSmall(fs, inum, len);
      ChunkNone(fs, meta, inum, len, len);
      assert xp[..0] == [] && xp[0..|xp|] == xp;
      ghost var rounds := 0;
      RoundsMore(len, 0, 0);
      while p < |xp|
        invariant 0 <= rounds <= Rounds(len, p) && freeblock <= old(freeblock) + 2 * rounds
        invariant (p == 0 ==> rounds == 0) && (0 < p < |xp| ==> off % BSIZE == 0)
        invariant 0 <= p <= |xp| && off == len + p && Valid() && |image| == |old(image)|
        invariant dinodes == old(dinodes) && din == old(dinodes[inum]).(addrs := din.addrs) && |din.addrs| == NADDRS
        invariant ChunkOk(fs, With(inum, din), meta, inum, len, xp[..p], len)
        invariant Wf(With(inum, din)) && off <= MAXFILE * BSIZE
        invariant len + |xp| <= MAXFILE * BSIZE ==>
          Written(fs, inum, len, xp) == Written(With(inum, din), inum, off, xp[p..|xp|])
      {
        var fbn := off / BSIZE;
        if MAXFILE <= fbn {
          RoundsMore(len, p, |xp|);
          return false;
        }
        var n1 := Min(|xp| - p, (fbn + 1) * BSIZE - off);
        RoundsGrow(len, p, n1, |xp|);
        ghost var f := With(inum, din);
        if len + |xp| <= MAXFILE * BSIZE {
          WrittenStep(f, inum, off, xp, p, |xp|);
        }
        var done;
        done, din := AppendRound(inum, din, off, xp[p..p + n1], fs, xp[..p], len);
        rounds := rounds + 1;
        if !done {
          return false;
        }
        assert xp[..p] + xp[p..p + n1] == xp[..p + n1];
        ChunkShape(fs, With(inum, din), meta, inum, len, xp[..p + n1], len);
        p, off := p + n1, off + n1;
      }
      assert xp[..p] == xp;
      ghost var f := With(inum, din);
      WrittenEnd(f, inum, off, xp[p..|xp|]);
      ResizedOk(fs, f, meta, inum, len, xp);
      UpdateTwice(dinodes, inum, din, din.(size := off));
      dinodes := dinodes[inum := din.(size := off)];
      WriteNoHoles(fs, Abs(), meta, inum, len, xp);
      WriteOwned(fs, Abs(), meta, inum, len, xp);
      return true;
    }

    /** One round of iappend, within one block. */
    method AppendRound(inum: int, din: Dinode, off: nat, chunk: seq<byte>, ghost fs: Fs, ghost done: seq<byte>,
      ghost len: int) returns (ok: bool, r: Dinode)
      requires Valid() && 0 <= inum < |dinodes| && |din.addrs| == NADDRS
      requires Owned(fs, meta) && inum < |fs.inodes| && 0 <= len && Exact(fs, inum, len)
        && ChunkOk(fs, With(inum, din), meta, inum, len, done, len)
      requires off == len + |done| && off < MAXFILE * BSIZE && 0 < |chunk| && off % BSIZE + |chunk| <= BSIZE
      modifies this`freeblock, this`usedblocks, this`image
      ensures Valid() && |image| == |old(image)| && |r.addrs| == NADDRS && r == din.(addrs := r.addrs)
      ensures ok ==> ChunkOk(fs, With(inum, r), meta, inum, len, done + chunk, len)
      ensures Wf(old(With(inum, din))) && ChunkWritten(old(With(inum, din)), inum, off, chunk) == if ok then
        Some(With(inum, r)) else None
      ensures !ok ==> freeblock == |image|
      ensures freeblock <= old(freeblock) + 2
    {
      hide Bump, Marked, Unshared, FreeZero, Exact, Addr, SlotOf, OthersSame, ChunkOk, Mapped, SameElsewhere;
      ghost var f := With(inum, din);
      ChunkShape(fs, f, meta, inum, len, done, len);
      var n, lo := off / BSIZE, off % BSIZE;
      MappedKeeps(f, meta, inum, n, off, off + |chunk|);
      var x;
      ok, r, x := MapBlock(inum, din, n);
      if ok {
        ghost var g := With(inum, r);
        ChunkSteps(f, g, meta, inum, n, lo, chunk, off);
        image := image[x := Patched(image[x], lo, chunk)];
        ChunkTrans(fs, f, With(inum, r), meta, inum, len, done, chunk, len);
      }
    }

    /** balloc: the bitmap is written at the end, its first block only; the other blocks have stayed zero. */
    method WriteBitmap() returns (bitmap: seq<seq<bool>>)
      requires Valid() && 0 < |image| && usedblocks < 512
      ensures BitmapOk(bitmap) && |bitmap| == (|image| + BPB - 1) / BPB
        && Flat(bitmap) == Bump(|bitmap| * BPB, usedblocks)
    {
      var buf := seq(BPB, i => false);
      for i := 0 to usedblocks
        invariant |buf| == BPB && buf == Bump(BPB, i)
      {
        buf := buf[i := true];
      }
      bitmap := seq((|image| + BPB - 1) / BPB, k => seq(BPB, i => false));
      bitmap := bitmap[0 := buf];
      FirstBlock(bitmap, usedblocks);
    }

    /**
     The end of main: the root directory's size is rounded up and the bitmap written. The result is the disk the
     kernel starts from, null when the assertion of balloc fails. The kernel finds its invariant on it exactly
     when the root directory did not fill its last block.
     */
    method Finish() returns (fs: FileSystem?)
      requires Valid() && Sound(Abs(), meta) && 1 < |dinodes|
      modifies this`dinodes
      ensures dinodes == old(dinodes)[1 := old(dinodes)[1].(size := (old(dinodes)[1].size / BSIZE + 1) * BSIZE)]
      ensures fs == null <==> 512 <= usedblocks
      ensures fs != null ==>
        fresh(fs) && fs.Valid() && fs.size == |image| && fs.Disk() == Padded(Abs(), |fs.bitmap| * BPB)
      ensures fs != null ==> (Sound(fs.Disk(), meta) <==> old(dinodes)[1].size % BSIZE != 0)
    {
      hide Sound, Bump, Padded, Flat, BitmapOk;
      ghost var was := Abs();
      MetaBelow(was, meta);
      var off := dinodes[1].size;
      off := (off / BSIZE + 1) * BSIZE;
      dinodes := dinodes[1 := dinodes[1].(size := off)];
      if 512 <= usedblocks {
        return null;
      }
      var bitmap := WriteBitmap();
      var data := image + seq(|bitmap| * BPB - |image|, b => Zeros());
      PaddedBump(Abs(), freeblock, |bitmap| * BPB);
      RoundedSound(was, meta, |bitmap| * BPB);
      fs := new FileSystem(|image|, bitmap, data, dinodes);
    }
  }

  /** How many blocks n bytes from position len on touch, at most. */
  function Rounds(len: nat, n: nat): int {
    (len + n + BSIZE - 1) / BSIZE - len / BSIZE
  }

  /** A round goes to the end of the block or of the data. */
  lemma RoundsGrow(len: nat, p: nat, n1: nat, n: nat)
    requires p < n && n1 == Min(n - p, ((len + p) / BSIZE + 1) * BSIZE - (len + p))
      && (0 < p ==> (len + p) % BSIZE == 0)
    ensures 0 < n1 <= n - p && (if p == 0 then 1 else Rounds(len, p) + 1) <= Rounds(len, p + n1) <= Rounds(len, n)
    ensures p + n1 < n ==> (len + p + n1) % BSIZE == 0
  {
    var a := len + p;
    assert a == a / BSIZE * BSIZE + a % BSIZE;
    assert a + n1 <= a / BSIZE * BSIZE + BSIZE;
  }

  lemma RoundsMore(len: nat, p: nat, n: nat)
    requires p <= n
    ensures 0 <= Rounds(len, p) <= Rounds(len, n)
  {
  }

  lemma EmptyImage(fs: Fs, meta: nat)
    requires 0 < meta <= |fs.bits| == |fs.data| < UINT && fs.bits == Bump(|fs.data|, meta)
    requires forall b {:trigger fs.data[b]} :: 0 <= b < |fs.data| ==> fs.data[b] == Zeros()
    requires forall i {:trigger fs.inodes[i]} :: 0 <= i < |fs.inodes| ==> fs.inodes[i] == Cleared(0)
    ensures Sound(fs, meta)
  {
    assert Wf(fs);
    forall i, s | 0 <= i < |fs.inodes| && 0 <= s < SLOTS
      ensures Addr(fs, i, s) == 0
    {
    }
    forall i | 0 <= i < |fs.inodes|
      ensures Exact(fs, i, fs.inodes[i].size)
    {
    }
  }

  lemma MetaBelow(fs: Fs, meta: nat)
    requires Sound(fs, meta)
    ensures Wf(fs) && 0 < meta <= |fs.bits| == |fs.data|
  {
  }

  lemma FirstBlock(bitmap: seq<seq<bool>>, used: nat)
    requires 0 < |bitmap| && bitmap[0] == Bump(BPB, used) && used <= BPB
    requires forall k {:trigger bitmap[k]} :: 1 <= k < |bitmap| ==> bitmap[k] == seq(BPB, i => false)
    ensures BitmapOk(bitmap) && Flat(bitmap) == Bump(|bitmap| * BPB, used)
  {
    forall b | 0 <= b < |bitmap| * BPB
      ensures Flat(bitmap)[b] == Bump(|bitmap| * BPB, used)[b]
    {
      assert b == b / BPB * BPB + b % BPB;
    }
  }

  /** The disk as the kernel sees it: whole bitmap blocks, with clear bits and zero blocks beyond the image. */
  function Padded(fs: Fs, n: nat): (r: Fs)
    requires |fs.bits| == |fs.data| <= n
    ensures |r.bits| == |r.data| == n && r.inodes == fs.inodes
  {
    fs.(bits := fs.bits + seq(n - |fs.bits|, b => false), data := fs.data + seq(n - |fs.data|, b => Zeros()))
  }

  lemma PaddedBump(fs: Fs, used: nat, n: nat)
    requires |fs.bits| == |fs.data| <= n && used <= |fs.bits| && fs.bits == Bump(|fs.bits|, used)
    ensures Padded(fs, n) == Fs(Bump(n, used), fs.data + seq(n - |fs.data|, b => Zeros()), fs.inodes)
  {
    assert Padded(fs, n).bits == Bump(n, used);
  }

  lemma PaddedAddr(fs: Fs, meta: nat, n: nat, i: int, s: int)
    requires Owned(fs, meta) && |fs.bits| <= n < UINT && 0 <= i < |fs.inodes| && 0 <= s < SLOTS
    ensures Wf(Padded(fs, n)) && Addr(Padded(fs, n), i, s) == Addr(fs, i, s)
  {
    assert Addr(fs, i, INDIRECT) == fs.inodes[i].addrs[INDIRECT];
  }

  /** Padding changes neither the ownership of blocks nor where a file has holes. */
  lemma PaddedKeeps(fs: Fs, meta: nat, n: nat)
    requires Owned(fs, meta) && |fs.bits| <= n < UINT
    ensures Owned(Padded(fs, n), meta)
    ensures forall j, len {:trigger Exact(fs, j, len)} :: 0 <= j < |fs.inodes| ==>
      (Exact(Padded(fs, n), j, len) <==> Exact(fs, j, len))
  {
    hide Addr, Exact;
    var r := Padded(fs, n);
    assert Wf(r);
    forall i, s | 0 <= i < |fs.inodes| && 0 <= s < SLOTS
      ensures Addr(r, i, s) == Addr(fs, i, s)
    {
      PaddedAddr(fs, meta, n, i, s);
    }
    forall j, len | 0 <= j < |fs.inodes|
      ensures Exact(r, j, len) <==> Exact(fs, j, len)
    {
      if Exact(fs, j, len) {
        ExactSame(fs, r, j, len);
      } else if Exact(r, j, len) {
        ExactSame(r, fs, j, len);
      }
    }
  }

  /** Nor does it change a byte of a file. */
  lemma PaddedBytes(fs: Fs, meta: nat, n: nat, j: int, len: int)
    requires Owned(fs, meta) && |fs.bits| <= n < UINT && 0 <= j < |fs.inodes| && Exact(fs, j, len)
    ensures Wf(Padded(fs, n)) && Bytes(Padded(fs, n), j, len) == Bytes(fs, j, len)
  {
    hide Addr;
    var r := Padded(fs, n);
    assert Wf(r);
    forall k | 0 <= k < len
      ensures ByteAt(r, j, k) == ByteAt(fs, j, k)
    {
      PaddedAddr(fs, meta, n, j, SlotOf(k / BSIZE));
      assert Addr(fs, j, SlotOf(k / BSIZE)) != 0;
    }
  }

  /** The disk after the rounding is sound exactly when the root directory did not end at a block boundary. */
  lemma RoundedSound(fs: Fs, meta: nat, n: nat)
    requires Sound(fs, meta) && 1 < |fs.inodes| && |fs.bits| <= n < UINT
    ensures var off := fs.inodes[1].size;
      Sound(Padded(Resized(fs, 1, (off / BSIZE + 1) * BSIZE), n), meta) <==> off % BSIZE != 0
  {
    hide Addr, Exact, Marked, Unshared, FreeZero, Padded, Bytes;
    var off := fs.inodes[1].size;
    var end := (off / BSIZE + 1) * BSIZE;
    var r := Resized(fs, 1, end);
    ResizedSame(fs, meta, 1, end);
    PaddedKeeps(r, meta, n);
    RootRounding(fs, 1, off);
    assert Resized(r, 1, off).inodes == fs.inodes;
    ResizedSame(r, meta, 1, off);
    assert Exact(r, 1, end) <==> Exact(fs, 1, end);
    assert forall j {:trigger fs.inodes[j]} :: 0 <= j < |fs.inodes| && j != 1 ==> Exact(r, j, r.inodes[j].size);
  }

  lemma FullImage(n: nat)
    ensures Lowest(Bump(n, n), 0) == NONE
  {
  }

  /**
   main rounds the size of the root directory up to the next whole block, even when it is whole already.
   The directory then has no hole exactly when its size was not a multiple of the block size.
   */
  lemma RootRounding(fs: Fs, i: int, off: nat)
    requires Wf(fs) && 0 <= i < |fs.inodes| && Exact(fs, i, off)
    ensures Exact(fs, i, (off / BSIZE + 1) * BSIZE) <==> off % BSIZE != 0
  {
    var n := off / BSIZE;
    assert off == n * BSIZE + off % BSIZE;
    if n < MAXFILE {
      assert Addr(fs, i, SlotOf(n)) != 0 <==> n * BSIZE < off;
    }
    if off % BSIZE != 0 {
      ExactStretch(fs, i, n, off, (n + 1) * BSIZE);
    }
  }

  /** The inodes of thirty empty files and of the root directory, which with its own two entries fills one block. */
  function ThirtyInodes(i: int): (d: Dinode)
    ensures |d.addrs| == NADDRS && d.size == (if i == 1 then BSIZE else 0)
    ensures forall k {:trigger d.addrs[k]} :: 0 <= k < NADDRS ==> d.addrs[k] == if i == 1 && k == 0 then 29 else 0
  {
    if i == 1 then Dinode(1, 0, 0, 1, BSIZE, seq(NADDRS, k => if k == 0 then 29 else 0))
    else if 1 < i < 32 then Cleared(2).(nlink := 1)
    else Cleared(0)
  }

  function ThirtyFiles(entries: Block): (fs: Fs) {
    Fs(Bump(1024, 30), seq(1024, b => Zeros())[29 := entries], seq(200, i => ThirtyInodes(i)))
  }

  /** On that image the rounding leaves the root directory with a hole. */
  lemma WholeRootFails(entries: Block)
    ensures var fs := ThirtyFiles(entries);
      Sound(fs, 29) && !Sound(Padded(Resized(fs, 1, 2 * BSIZE), BPB), 29)
  {
    var fs := ThirtyFiles(entries);
    forall i, s | 0 <= i < 200 && 0 <= s < SLOTS
      ensures Wf(fs) && Addr(fs, i, s) == if i == 1 && s == 0 then 29 else 0
    {
      ThirtyFilesAddr(entries, i, s);
    }
    hide Addr, ThirtyInodes;
    assert Wf(fs) by {
      ThirtyFilesAddr(entries, 1, 0);
    }
    assert Marked(fs, 29) && Unshared(fs) && FreeZero(fs, 29);
    forall i | 0 <= i < 200
      ensures Exact(fs, i, fs.inodes[i].size)
    {
      assert fs.inodes[i].addrs[INDIRECT] == 0;
    }
    RoundedSound(fs, 29, BPB);
  }

  lemma ThirtyFilesAddr(entries: Block, i: int, s: int)
    requires 0 <= i < 200 && 0 <= s < SLOTS
    ensures Wf(ThirtyFiles(entries)) && Addr(ThirtyFiles(entries), i, s) == if i == 1 && s == 0 then 29 else 0
  {
    hide ThirtyInodes;
    assert ThirtyFiles(entries).inodes[i].addrs[INDIRECT] == 0;
  }

  lemma WriteOwned(fs: Fs, r: Fs, meta: nat, i: int, off: int, src: seq<byte>)
    requires Owned(fs, meta) && 0 <= i < |fs.inodes| && 0 <= off <= fs.inodes[i].size && Exact(fs, i, fs.inodes[i].size)
    requires WriteOk(fs, r, meta, i, off, src)
    ensures Owned(r, meta)
  {
  }
}
