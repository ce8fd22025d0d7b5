/** The block and inode layers of fs.c as the kernel executes them, proved against FsSpec, FsWrite and FsTrunc. */
module FileSystems {
  import opened Options
  import opened Words
  import opened FsSpec
  import opened FsWrite
  import opened FsTrunc

  /** Bits per bitmap block. */
  const BPB: int := BSIZE * 8

  const T_DEV: int := 3

  /** The in-memory copy of an inode, locked by its user. */
  class Inode {
    const inum: int
    var typ: int
    var major: int
    var minor: int
    var nlink: int
    var size: nat
    var addrs: seq<nat>

    constructor (inum: int, d: Dinode)
      ensures this.inum == inum && Copy() == d
    {
      this.inum := inum;
      typ, major, minor, nlink, size, addrs := d.typ, d.major, d.minor, d.nlink, d.size, d.addrs;
    }

    function Copy(): (d: Dinode)
      reads this
    {
      Dinode(typ, major, minor, nlink, size, addrs)
    }
  }

  ghost predicate BitmapOk(bitmap: seq<seq<bool>>) {
    forall k {:trigger bitmap[k]} :: 0 <= k < |bitmap| ==> |bitmap[k]| == BPB
  }

  /** The bitmap blocks as one sequence of bits: bit b of the disk is bit b % BPB of bitmap block b / BPB. */
  ghost function Flat(bitmap: seq<seq<bool>>): (bits: seq<bool>)
    requires BitmapOk(bitmap)
    ensures |bits| == |bitmap| * BPB
    ensures forall b {:trigger bits[b]} :: 0 <= b < |bits| ==> bits[b] == bitmap[b / BPB][b % BPB]
  {
    seq(|bitmap| * BPB, b requires 0 <= b < |bitmap| * BPB => bitmap[b / BPB][b % BPB])
  }

  lemma BitmapBlock(bitmap: seq<seq<bool>>, k: int)
    requires BitmapOk(bitmap) && 0 <= k < |bitmap|
    ensures k * BPB / BPB == k && |bitmap[k]| == BPB && |Flat(bitmap)| == |bitmap| * BPB
      && (k + 1) * BPB <= |Flat(bitmap)|
  {
  }

  lemma FlatAt(bitmap: seq<seq<bool>>, k: int, bi: int)
    requires BitmapOk(bitmap) && 0 <= k < |bitmap| && 0 <= bi < BPB
    ensures (k * BPB + bi) / BPB == k && 0 <= k * BPB + bi < |Flat(bitmap)|
    ensures Flat(bitmap)[k * BPB + bi] == bitmap[k][bi]
  {
  }

  lemma FlatSet(bitmap: seq<seq<bool>>, k: int, bi: int, v: bool)
    requires BitmapOk(bitmap) && 0 <= k < |bitmap| && 0 <= bi < BPB
    ensures BitmapOk(bitmap[k := bitmap[k][bi := v]])
    ensures 0 <= k * BPB + bi < |Flat(bitmap)|
    ensures Flat(bitmap[k := bitmap[k][bi := v]]) == Flat(bitmap)[k * BPB + bi := v]
  {
    var after := bitmap[k := bitmap[k][bi := v]];
    forall b | 0 <= b < |Flat(bitmap)|
      ensures Flat(after)[b] == Flat(bitmap)[k * BPB + bi := v][b]
    {
      assert b == b / BPB * BPB + b % BPB;
    }
  }

  lemma UpdateTwice<T>(s: seq<T>, i: int, x: T, y: T)
    requires 0 <= i < |s|
    ensures s[i := x][i := y] == s[i := y]
  {
  }

  class FileSystem {
    const size: nat
    var bitmap: seq<seq<bool>>
    var data: seq<Block>
    var dinodes: seq<Dinode>

    ghost predicate Valid()
      reads this
    {
      && BitmapOk(bitmap) && |bitmap| == (size + BPB - 1) / BPB
      && |data| == |bitmap| * BPB
    }

    constructor (size: nat, bitmap: seq<seq<bool>>, data: seq<Block>, dinodes: seq<Dinode>)
      requires BitmapOk(bitmap) && |bitmap| == (size + BPB - 1) / BPB && |data| == |bitmap| * BPB
      ensures Valid() && this.size == size && this.bitmap == bitmap && this.data == data && this.dinodes == dinodes
    {
      this.size, this.bitmap, this.data, this.dinodes := size, bitmap, data, dinodes;
    }

    /** The disk. */
    ghost function Disk(): (fs: Fs)
      requires Valid()
      reads this
    {
      Fs(Flat(bitmap), data, dinodes)
    }

    /** The disk with the in-memory copy of one inode taken for its disk copy. */
    ghost function Abs(ip: Inode): (fs: Fs)
      requires Valid() && 0 <= ip.inum < |dinodes|
      reads this, ip
    {
      Fs(Flat(bitmap), data, dinodes[ip.inum := ip.Copy()])
    }

    ghost predicate Holds(ip: Inode)
      reads this, ip
    {
      Valid() && 0 <= ip.inum < |dinodes| && |ip.addrs| == NADDRS
    }

    /** No block is left: the only reason for balloc to panic. */
    ghost predicate NoneFree()
      reads this
    {
      Valid() && Lowest(Flat(bitmap), 0) == NONE
    }

    /** balloc: the lowest clear bit is set; NONE stands for the panic when there is none. */
    method Balloc() returns (r: int)
      requires Valid()
      modifies this`bitmap
      ensures Valid() && r == Lowest(old(Flat(bitmap)), 0)
      ensures Flat(bitmap) == if r == NONE then old(Flat(bitmap)) else old(Flat(bitmap))[r := true]
    {
      hide Flat, BitmapOk;
      var b := 0;
      ghost var k := 0;
      while b < size
        invariant 0 <= k <= |bitmap| && b == k * BPB && bitmap == old(bitmap)
        invariant Lowest(Flat(bitmap), 0) == Lowest(Flat(bitmap), b)
      {
        BitmapBlock(bitmap, k);
        var bi, block := 0, bitmap[b / BPB];
        while bi < BPB
          invariant 0 <= bi <= BPB && bitmap == old(bitmap)
          invariant Lowest(Flat(bitmap), 0) == Lowest(Flat(bitmap), b + bi)
        {
          FlatAt(bitmap, k, bi);
          if !block[bi] {
            FlatSet(bitmap, k, bi, true);
            block := block[bi := true];
            bitmap := bitmap[b / BPB := block];
            return b + bi;
          }
          bi := bi + 1;
        }
        b, k := b + BPB, k + 1;
      }
      return NONE;
    }

    /** bfree: the block is zeroed, then its bit cleared; false stands for the panic on a block already free. */
    method Bfree(b: nat) returns (ok: bool)
      requires Valid() && b < |data|
      modifies this`bitmap, this`data
      ensures Valid() && ok == old(Flat(bitmap))[b]
      ensures data == old(data)[b := Zeros()]
      ensures Flat(bitmap) == old(Flat(bitmap))[b := false]
    {
      data := data[b := Zeros()];
      var bi := b % BPB;
      assert b == b / BPB * BPB + bi;
      if !bitmap[b / BPB][bi] {
        return false;
      }
      FlatSet(bitmap, b / BPB, bi, false);
      bitmap := bitmap[b / BPB := bitmap[b / BPB][bi := false]];
      return true;
    }

    /** balloc straight into slot s of the inode or, from NADDRS on, of its indirect block. */
    method Grow(ip: Inode, s: int, ghost meta: nat) returns (b: int)
      requires Holds(ip) && Owned(Abs(ip), meta) && 0 <= s < SLOTS && Addr(Abs(ip), ip.inum, s) == 0
      requires s < NADDRS || 0 < ip.addrs[INDIRECT] < |data|
      modifies this`bitmap, this`data, ip`addrs
      ensures Holds(ip)
      ensures b == NONE <==> Grown(old(Abs(ip)), ip.inum, s).None?
      ensures b == NONE ==> Abs(ip) == old(Abs(ip)) && NoneFree()
      ensures b != NONE ==>
        Grown(old(Abs(ip)), ip.inum, s) == Some(Abs(ip)) && Wf(Abs(ip)) && b == Addr(Abs(ip), ip.inum, s)
    {
      hide Flat, BitmapOk, Marked, Unshared, FreeZero;
      ghost var fs := Abs(ip);
      b := Balloc();
      if b == NONE {
        return;
      }
      AttachAddr(fs, meta, ip.inum, s, b, ip.inum, s);
      if s < NADDRS {
        ip.addrs := ip.addrs[s := b];
        UpdateTwice(dinodes, ip.inum, old(ip.Copy()), ip.Copy());
      } else {
        var a := ip.addrs[INDIRECT];
        data := data[a := WithWord(data[a], s - NADDRS, b)];
      }
    }

    /**
     bmap: the address of the bn-th block of the file. Without alloc, NONE stands for the result -1 of a
     missing block; with alloc, for the panic of balloc. Out of range is the panic of bmap itself.
     */
    method Bmap(ip: Inode, bn: nat, alloc: bool, ghost meta: nat) returns (r: int, panicked: bool)
      requires Holds(ip) && Owned(Abs(ip), meta)
      modifies this`bitmap, this`data, ip`addrs
      ensures Holds(ip)
      ensures MAXFILE <= bn ==> panicked
      ensures bn < MAXFILE && !alloc ==> !panicked && Abs(ip) == old(Abs(ip))
      ensures bn < MAXFILE && !alloc ==>
        r == var a := Addr(old(Abs(ip)), ip.inum, SlotOf(bn)); if a == 0 then NONE else a
      ensures bn < MAXFILE && alloc && !panicked ==> Mapped(old(Abs(ip)), ip.inum, bn) == Some(Abs(ip))
      ensures bn < MAXFILE && alloc && !panicked ==> Wf(Abs(ip)) && r == Addr(Abs(ip), ip.inum, SlotOf(bn))
      ensures bn < MAXFILE && alloc && panicked ==> Mapped(old(Abs(ip)), ip.inum, bn).None? && NoneFree()
    {
      hide Flat, BitmapOk, Marked, Unshared, FreeZero, Grown, SameElsewhere;
      ghost var fs := Abs(ip);
      var b;
      if bn < NDIRECT {
        if ip.addrs[bn] == 0 {
          if !alloc {
            return NONE, false;
          }
          GrownKeeps(fs, meta, ip.inum, bn);
          b := Grow(ip, bn, meta);
          if b == NONE {
            return NONE, true;
          }
        }
        return ip.addrs[bn], false;
      }
      var n := bn - NDIRECT;
      if NINDIRECT <= n {
        return NONE, true;
      }
      assert Addr(fs, ip.inum, INDIRECT) == ip.addrs[INDIRECT];
      if ip.addrs[INDIRECT] == 0 {
        if !alloc {
          return NONE, false;
        }
        GrownKeeps(fs, meta, ip.inum, INDIRECT);
        b := Grow(ip, INDIRECT, meta);
        if b == NONE {
          return NONE, true;
        }
      }
      ghost var f := Abs(ip);
      IndirectInRange(f, meta, ip.inum);
      r := Word(data[ip.addrs[INDIRECT]], n);
      if r == 0 {
        if !alloc {
          return NONE, false;
        }
        GrownKeeps(f, meta, ip.inum, NADDRS + n);
        r := Grow(ip, NADDRS + n, meta);
        if r == NONE {
          return NONE, true;
        }
      }
      return r, false;
    }

    /** One round of the loop of readi, within one block. */
    method ReadBlock(ip: Inode, off: nat, m: nat, ghost len: int, ghost meta: nat) returns (chunk: seq<byte>)
      requires Holds(ip) && Owned(Abs(ip), meta) && Exact(Abs(ip), ip.inum, len)
      requires 0 < m && off + m <= len && off % BSIZE + m <= BSIZE
      modifies this`bitmap, this`data, ip`addrs
      ensures Holds(ip) && Abs(ip) == old(Abs(ip))
      ensures len <= MAXFILE * BSIZE && chunk == Bytes(old(Abs(ip)), ip.inum, len)[off..off + m]
    {
      hide Flat, BitmapOk, Marked, Unshared, FreeZero, Exact, Word, Addr, SlotOf, Bytes;
      ExactSmall(Abs(ip), ip.inum, len);
      ReadRound(Abs(ip), meta, ip.inum, off, m, len);
      var b, panicked := Bmap(ip, off / BSIZE, false, meta);
      chunk := data[b][off % BSIZE..off % BSIZE + m];
    }

    /** readi of a file or directory: a result of -1, or the bytes of the file in the range clipped to its end. */
    method Readi(ip: Inode, off: nat, n: nat, ghost meta: nat) returns (r: int, dst: seq<byte>)
      requires Holds(ip) && Owned(Abs(ip), meta) && Exact(Abs(ip), ip.inum, ip.size) && ip.typ != T_DEV
      requires off < UINT && n < UINT
      modifies this`bitmap, this`data, ip`addrs
      ensures Holds(ip) && Abs(ip) == old(Abs(ip))
      ensures ip.size < off || UINT <= off + n ==> r == -1 && dst == []
      ensures off <= ip.size && off + n < UINT ==>
        r == Min(n, ip.size - off) && dst == Content(Abs(ip), ip.inum)[off..off + r]
    {
      hide Flat, BitmapOk, Marked, Unshared, FreeZero, Exact, Word, Addr, SlotOf, Bytes;
      dst := [];
      if ip.size < off || (off + n) % UINT < off {
        return -1, [];
      }
      ghost var fs, size0 := Abs(ip), ip.size;
      ExactSmall(fs, ip.inum, ip.size);
      r := if ip.size < off + n then ip.size - off else n;
      var at, tot := off, 0;
      while tot < r
        invariant 0 <= tot <= r && at == off + tot && Holds(ip) && Abs(ip) == fs && ip.size == size0
        invariant dst == Bytes(fs, ip.inum, size0)[off..off + tot]
      {
        var m := Min(r - tot, BSIZE - at % BSIZE);
        assert m == Round(at, r - tot);
        var chunk := ReadBlock(ip, at, m, size0, meta);
        dst := dst + chunk;
        SliceGrows(Bytes(fs, ip.inum, size0), off, at, m);
        tot, at := tot + m, at + m;
      }
    }

    /** iupdate: the in-memory copy goes to disk. */
    method Iupdate(ip: Inode)
      requires Holds(ip)
      modifies this`dinodes
      ensures Holds(ip) && Disk() == Abs(ip) == old(Abs(ip))
    {
      UpdateTwice(dinodes, ip.inum, ip.Copy(), ip.Copy());
      dinodes := dinodes[ip.inum := ip.Copy()];
    }

    /** One round of the loop of writei, within one block. */
    method WriteRound(ip: Inode, off: nat, chunk: seq<byte>, ghost len: int, ghost meta: nat) returns (panicked: bool)
      requires Holds(ip) && Owned(Abs(ip), meta) && Exact(Abs(ip), ip.inum, len)
      requires off <= len && 0 < |chunk| && off < MAXFILE * BSIZE && off % BSIZE + |chunk| <= BSIZE
      modifies this`bitmap, this`data, ip`addrs
      ensures Holds(ip)
      ensures !panicked ==> ChunkOk(old(Abs(ip)), Abs(ip), meta, ip.inum, off, chunk, len)
      ensures !panicked ==> ChunkWritten(old(Abs(ip)), ip.inum, off, chunk) == Some(Abs(ip))
      ensures panicked ==> NoneFree() && ChunkWritten(old(Abs(ip)), ip.inum, off, chunk).None?
    {
      hide Flat, BitmapOk, Marked, Unshared, FreeZero, Exact, Word, Addr, SlotOf, Mapped, OthersSame, SameElsewhere;
      ghost var fs := Abs(ip);
      var n, lo := off / BSIZE, off % BSIZE;
      MappedKeeps(fs, meta, ip.inum, n, len, off + |chunk|);
      var b;
      b, panicked := Bmap(ip, n, true, meta);
      if panicked {
        return;
      }
      ChunkSteps(fs, Abs(ip), meta, ip.inum, n, lo, chunk, len);
      data := data[b := Patched(data[b], lo, chunk)];
    }

    /**
     writei of a file or directory at or below its end: the range clipped to the largest file size is
     overwritten or appended. The disk copy of the inode is up to date afterwards, although it is
     written only when the file has grown.
     */
    method Writei(ip: Inode, off: nat, src: seq<byte>, ghost meta: nat) returns (r: int, panicked: bool)
      requires Holds(ip) && Owned(Abs(ip), meta) && Exact(Abs(ip), ip.inum, ip.size) && ip.typ != T_DEV
      requires off <= ip.size && |src| < UINT
      requires dinodes[ip.inum] == ip.Copy()
      modifies this`bitmap, this`data, this`dinodes, ip`addrs, ip`size
      ensures Holds(ip) && off <= MAXFILE * BSIZE && Wf(old(Abs(ip)))
      ensures UINT <= off + |src| ==> r == -1 && !panicked && Abs(ip) == old(Abs(ip))
      ensures !panicked ==> dinodes[ip.inum] == ip.Copy()
      ensures panicked ==> NoneFree()
      ensures off + |src| < UINT ==>
        var n := Min(|src|, MAXFILE * BSIZE - off);
        var w := Written(old(Abs(ip)), ip.inum, off, src[..n]);
        && (panicked <==> w.None?)
        && (!panicked ==>
             r == n && |w.value.inodes| == |dinodes|
             && Abs(ip) == Resized(w.value, ip.inum, Max(old(ip.size), off + n)))
      ensures off + |src| < UINT && !panicked ==> WriteOk(old(Abs(ip)), Abs(ip), meta, ip.inum, off, src[..r])
    {
      hide Flat, BitmapOk, Marked, Unshared, FreeZero, Exact, Word, Addr, SlotOf, Mapped, OthersSame, ChunkOk, WriteOk,
        Written, ChunkWritten;
      panicked := false;
      ghost var fs, i, len := Abs(ip), ip.inum, ip.size;
      ExactSmall(fs, i, len);
      if (off + |src|) % UINT < off {
        return -1, false;
      }
      r := if MAXFILE * BSIZE < off + |src| then MAXFILE * BSIZE - off else |src|;
      var at, tot := off, 0;
      ChunkNone(fs, meta, i, off, len);
      assert src[..0] == [];
      while tot < r
        invariant 0 <= tot <= r && at == off + tot
        invariant Holds(ip) && ip.size == len && dinodes == old(dinodes)
        invariant ChunkOk(fs, Abs(ip), meta, i, off, src[..tot], len)
        invariant Wf(Abs(ip)) && Written(fs, i, off, src[..r]) == Written(Abs(ip), i, at, src[tot..r])
      {
        var m := Min(r - tot, BSIZE - at % BSIZE);
        assert m == Round(at, r - tot);
        ghost var f := Abs(ip);
        ChunkShape(fs, f, meta, i, off, src[..tot], len);
        WrittenStep(f, i, at, src, tot, r);
        panicked := WriteRound(ip, at, src[tot..tot + m], Max(len, at), meta);
        if panicked {
          return;
        }
        ChunkTrans(fs, f, Abs(ip), meta, i, off, src[..tot], src[tot..tot + m], len);
        ChunkShape(fs, Abs(ip), meta, i, off, src[..tot] + src[tot..tot + m], len);
        assert src[..tot] + src[tot..tot + m] == src[..tot + m];
        tot, at := tot + m, at + m;
      }
      ghost var f := Abs(ip);
      WrittenEnd(f, i, at, src[tot..r]);
      ResizedOk(fs, f, meta, i, off, src[..r]);
      if 0 < r && ip.size < at {
        ip.size := at;
        UpdateTwice(dinodes, i, f.inodes[i], ip.Copy());
        Iupdate(ip);
      }
    }

    /** itrunc: every data block is freed exactly once, so bfree never finds a block already free. */
    method Itrunc(ip: Inode, ghost meta: nat)
      requires Holds(ip) && Owned(Abs(ip), meta)
      modifies this`bitmap, this`data, this`dinodes, ip`addrs, ip`size
      ensures Holds(ip) && Abs(ip) == Truncated(old(Abs(ip)), ip.inum) && Disk() == Abs(ip)
    {
      hide Flat, BitmapOk, Marked, Unshared, FreeZero, Word, Freed;
      ghost var fs, i := Abs(ip), ip.inum;
      FreeDirect(ip, fs, meta);
      FreedOne(fs, meta, i, INDIRECT);
      if ip.addrs[INDIRECT] != 0 {
        FreeListed(ip, fs, meta);
        ip.addrs := ip.addrs[INDIRECT := 0];
      } else {
        NoneListed(fs, i);
      }
      ip.size := 0;
      assert ip.addrs == seq(NADDRS, n => 0);
      UpdateTwice(dinodes, i, old(ip.Copy()), ip.Copy());
      Iupdate(ip);
    }

    /** The first half of itrunc: the direct blocks. */
    method FreeDirect(ip: Inode, ghost fs: Fs, ghost meta: nat)
      requires Holds(ip) && Owned(fs, meta) && fs == Abs(ip)
      modifies this`bitmap, this`data, ip`addrs
      ensures Holds(ip)
      ensures forall n {:trigger ip.addrs[n]} :: 0 <= n < NADDRS ==>
        ip.addrs[n] == if n < NDIRECT then 0 else old(ip.addrs)[n]
      ensures Fs(Flat(bitmap), data, fs.inodes) == Freed(fs, DataBlocks(fs, ip.inum, NDIRECT))
    {
      hide Flat, BitmapOk, Marked, Unshared, FreeZero, Word, Freed, DataBlocks;
      FreedNone(fs, ip.inum);
      for k := 0 to NDIRECT
        invariant Holds(ip)
        invariant forall n {:trigger ip.addrs[n]} :: 0 <= n < NADDRS ==>
          ip.addrs[n] == if n < k then 0 else old(ip.addrs)[n]
        invariant Fs(Flat(bitmap), data, fs.inodes) == Freed(fs, DataBlocks(fs, ip.inum, k))
      {
        FreedOne(fs, meta, ip.inum, k);
        if ip.addrs[k] != 0 {
          var ok := Bfree(ip.addrs[k]);
          assert ok;
          ip.addrs := ip.addrs[k := 0];
        }
      }
    }

    /** The second half of itrunc: the blocks listed in the indirect block. */
    method FreeListed(ip: Inode, ghost fs: Fs, ghost meta: nat)
      requires Holds(ip) && Owned(fs, meta) && 0 <= ip.inum < |fs.inodes|
      requires ip.addrs[INDIRECT] == fs.inodes[ip.inum].addrs[INDIRECT] != 0
      requires Fs(Flat(bitmap), data, fs.inodes) == Freed(fs, DataBlocks(fs, ip.inum, NADDRS))
      modifies this`bitmap, this`data
      ensures Valid()
      ensures Fs(Flat(bitmap), data, fs.inodes) == Freed(fs, DataBlocks(fs, ip.inum, SLOTS))
    {
      hide Flat, BitmapOk, Marked, Unshared, FreeZero, Word, Freed;
      ListedBlock(fs, meta, ip.inum);
      var a := data[ip.addrs[INDIRECT]];
      for j := 0 to NINDIRECT
        invariant Valid()
        invariant Fs(Flat(bitmap), data, fs.inodes) == Freed(fs, DataBlocks(fs, ip.inum, NADDRS + j))
      {
        FreedOne(fs, meta, ip.inum, NADDRS + j);
        if Word(a, j) != 0 {
          var ok := Bfree(Word(a, j));
          assert ok;
        }
      }
    }
  }

  lemma IndirectInRange(fs: Fs, meta: nat, i: int)
    requires Owned(fs, meta) && 0 <= i < |fs.inodes|
    ensures fs.inodes[i].addrs[INDIRECT] < |fs.data|
  {
    assert Addr(fs, i, INDIRECT) == fs.inodes[i].addrs[INDIRECT];
  }

  lemma ExactSmall(fs: Fs, i: int, len: int)
    requires Wf(fs) && 0 <= i < |fs.inodes| && Exact(fs, i, len)
    ensures 0 <= len <= MAXFILE * BSIZE < UINT
  {
  }

  /** One round of readi reads the next bytes of the file. */
  lemma ReadRound(fs: Fs, meta: nat, i: int, off: int, m: int, len: int)
    requires Owned(fs, meta) && 0 <= i < |fs.inodes| && Exact(fs, i, len)
    requires 0 <= off && 0 < m && off + m <= len && off % BSIZE + m <= BSIZE
    ensures off / BSIZE < MAXFILE && 0 < Addr(fs, i, SlotOf(off / BSIZE)) < |fs.data|
    ensures fs.data[Addr(fs, i, SlotOf(off / BSIZE))][off % BSIZE..off % BSIZE + m] == Bytes(fs, i, len)[off..off + m]
  {
    var n := off / BSIZE;
    assert off == n * BSIZE + off % BSIZE;
    var a := Addr(fs, i, SlotOf(n));
    assert a != 0;
    var x, y := fs.data[a][off % BSIZE..off % BSIZE + m], Bytes(fs, i, len)[off..off + m];
    forall k | 0 <= k < m
      ensures x[k] == y[k]
    {
      assert (off + k) / BSIZE == n && (off + k) % BSIZE == off % BSIZE + k;
    }
  }

  lemma SliceGrows(c: seq<byte>, off: int, at: int, m: int)
    requires 0 <= off <= at && 0 <= m && at + m <= |c|
    ensures c[off..at] + c[at..at + m] == c[off..at + m]
  {
  }

  /** r is fs with src written at off of file i, the size included. */
  ghost predicate WriteOk(fs: Fs, r: Fs, meta: nat, i: int, off: int, src: seq<byte>)
    requires Owned(fs, meta) && 0 <= i < |fs.inodes| && 0 <= off <= fs.inodes[i].size && Exact(fs, i, fs.inodes[i].size)
  {
    && Owned(r, meta) && |r.bits| == |fs.bits|
    && |r.inodes| == |fs.inodes|
    && r.inodes[i] == fs.inodes[i].(addrs := r.inodes[i].addrs, size := Max(fs.inodes[i].size, off + |src|))
    && Exact(r, i, r.inodes[i].size)
    && Content(r, i) == Overwrite(Content(fs, i), off, src)
    && (forall j {:trigger r.inodes[j]} :: 0 <= j < |fs.inodes| && j != i ==> r.inodes[j] == fs.inodes[j])
    && (forall j, len {:trigger Exact(fs, j, len)} :: 0 <= j < |fs.inodes| && j != i && Exact(fs, j, len) ==>
          Exact(r, j, len) && Bytes(r, j, len) == Bytes(fs, j, len))
  }

  function Resized(fs: Fs, i: int, size: nat): (r: Fs)
    requires 0 <= i < |fs.inodes|
  {
    fs.(inodes := fs.inodes[i := fs.inodes[i].(size := size)])
  }

  lemma ResizedSame(fs: Fs, meta: nat, i: int, size: nat)
    requires Owned(fs, meta) && 0 <= i < |fs.inodes|
    ensures Owned(Resized(fs, i, size), meta)
    ensures forall j, len {:trigger Exact(fs, j, len)} :: 0 <= j < |fs.inodes| && Exact(fs, j, len) ==>
      Exact(Resized(fs, i, size), j, len) && Bytes(Resized(fs, i, size), j, len) == Bytes(fs, j, len)
  {
    var r := Resized(fs, i, size);
    assert Wf(r);
    forall j, t | 0 <= j < |fs.inodes| && 0 <= t < SLOTS
      ensures Addr(r, j, t) == Addr(fs, j, t)
    {
    }
    forall j, len | 0 <= j < |fs.inodes| && Exact(fs, j, len)
      ensures Exact(r, j, len) && Bytes(r, j, len) == Bytes(fs, j, len)
    {
      ExactSame(fs, r, j, len);
    }
  }

  /** Once the size is set, the write is complete; when the file has not grown, its inode has not changed at all. */
  lemma ResizedOk(fs: Fs, f: Fs, meta: nat, i: int, off: int, src: seq<byte>)
    requires Owned(fs, meta) && 0 <= i < |fs.inodes| && 0 <= off <= fs.inodes[i].size && Exact(fs, i, fs.inodes[i].size)
    requires ChunkOk(fs, f, meta, i, off, src, fs.inodes[i].size)
    ensures |f.inodes| == |fs.inodes| && Owned(f, meta)
    ensures WriteOk(fs, Resized(f, i, Max(fs.inodes[i].size, off + |src|)), meta, i, off, src)
    ensures f.inodes[i].size == fs.inodes[i].size && Resized(f, i, fs.inodes[i].size) == f
    ensures off + |src| <= fs.inodes[i].size ==> f.inodes == fs.inodes
  {
    hide Marked, Unshared, FreeZero, Exact;
    var len := Max(fs.inodes[i].size, off + |src|);
    ExactCovers(f, i, len);
    ResizedSame(f, meta, i, len);
    var r := Resized(f, i, len);
    assert Bytes(r, i, len) == Bytes(f, i, len);
  }
}
