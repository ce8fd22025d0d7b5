/** What every sequence of file-system operations keeps, and where it starts (mkfs.c). */
module FsRuns {
  import opened Options
  import opened FsSpec
  import opened FsWrite
  import opened FsTrunc
  import opened FileSystems

  /** Block ownership, zeroed free blocks and files without holes. */
  ghost predicate Sound(fs: Fs, meta: nat) {
    Owned(fs, meta) && NoHoles(fs)
  }

  datatype Op =
    | Write(inum: int, off: int, src: seq<byte>)   // writei
    | Truncate(inum: int)                          // itrunc, called by iput for a file with no links left
    | Create(typ: int)                             // ialloc
    | Update(inum: int, d: Dinode)                 // iupdate after a change of type, device numbers or link count

  /** The lowest free inode, from 1 on; NONE stands for the panic when there is none. */
  function FreeInode(inodes: seq<Dinode>, from: nat): (i: int)
    requires from <= |inodes|
    ensures i == NONE ==> forall k :: from <= k < |inodes| ==> inodes[k].typ != 0
    ensures i != NONE ==> from <= i < |inodes| && inodes[i].typ == 0 && forall k :: from <= k < i ==> inodes[k].typ != 0
    decreases |inodes| - from
  {
    if from == |inodes| then NONE else if inodes[from].typ == 0 then from else FreeInode(inodes, from + 1)
  }

  function Cleared(typ: int): (d: Dinode) {
    Dinode(typ, 0, 0, 0, 0, seq(NADDRS, k => 0))
  }

  /** What the kernel demands of a caller of each operation. */
  ghost predicate Legal(fs: Fs, op: Op) {
    match op
    case Write(i, off, src) => 0 <= i < |fs.inodes| && 0 <= off <= fs.inodes[i].size && off + |src| <= MAXFILE * BSIZE
    case Truncate(i) => 0 <= i < |fs.inodes|
    case Create(typ) => true
    case Update(i, d) => 0 <= i < |fs.inodes| && d.size == fs.inodes[i].size && d.addrs == fs.inodes[i].addrs
  }

  /** The disk after the operation; None when the kernel panics for want of a free block or inode. */
  ghost function Did(fs: Fs, op: Op): (r: Option<Fs>)
    requires Wf(fs) && Legal(fs, op)
  {
    match op
    case Write(i, off, src) =>
      var w := Written(fs, i, off, src);
      if w.None? || |w.value.inodes| != |fs.inodes| then None
      else Some(Resized(w.value, i, Max(fs.inodes[i].size, off + |src|)))
    case Truncate(i) => Some(Truncated(fs, i))
    case Create(typ) =>
      var i := if |fs.inodes| == 0 then NONE else FreeInode(fs.inodes, 1);
      if i == NONE then None else Some(fs.(inodes := fs.inodes[i := Cleared(typ)]))
    case Update(i, d) => Some(fs.(inodes := fs.inodes[i := d]))
  }

  lemma WriteKeeps(fs: Fs, meta: nat, i: int, off: int, src: seq<byte>)
    requires Sound(fs, meta) && Legal(fs, Write(i, off, src))
    ensures Did(fs, Write(i, off, src)).Some? ==>
      var r := Did(fs, Write(i, off, src)).value;
      Sound(r, meta) && WriteOk(fs, r, meta, i, off, src)
  {
    hide Marked, Unshared, FreeZero, Exact, Written;
    var len := fs.inodes[i].size;
    WrittenKeeps(fs, meta, i, off, src, len);
    if Did(fs, Write(i, off, src)).Some? {
      var f := Written(fs, i, off, src).value;
      ResizedOk(fs, f, meta, i, off, src);
      WriteNoHoles(fs, Resized(f, i, Max(len, off + |src|)), meta, i, off, src);
    }
  }

  lemma WriteNoHoles(fs: Fs, r: Fs, meta: nat, i: int, off: int, src: seq<byte>)
    requires Sound(fs, meta) && 0 <= i < |fs.inodes| && 0 <= off <= fs.inodes[i].size
      && WriteOk(fs, r, meta, i, off, src)
    ensures NoHoles(r)
  {
    hide Marked, Unshared, FreeZero, Exact;
    forall j | 0 <= j < |r.inodes|
      ensures Exact(r, j, r.inodes[j].size)
    {
      if j != i {
        assert Exact(fs, j, fs.inodes[j].size);
      }
    }
  }

  lemma TruncateKeeps(fs: Fs, meta: nat, i: int)
    requires Sound(fs, meta) && 0 <= i < |fs.inodes|
    ensures Sound(Truncated(fs, i), meta)
  {
    TruncatedKeeps(fs, meta, i);
    var r := Truncated(fs, i);
    forall j | 0 <= j < |r.inodes|
      ensures Exact(r, j, r.inodes[j].size)
    {
      TruncatedOthers(fs, meta, i, j, fs.inodes[j].size);
    }
  }

  /** Inode i is rewritten without addresses: the other inodes keep theirs. */
  lemma ClearedKeeps(fs: Fs, meta: nat, i: int, typ: int)
    requires Sound(fs, meta) && 0 <= i < |fs.inodes|
    ensures Sound(fs.(inodes := fs.inodes[i := Cleared(typ)]), meta)
    ensures forall j {:trigger fs.inodes[j]} :: 0 <= j < |fs.inodes| && j != i ==>
      var r := fs.(inodes := fs.inodes[i := Cleared(typ)]); Content(r, j) == Content(fs, j)
  {
    var r := fs.(inodes := fs.inodes[i := Cleared(typ)]);
    assert Wf(r);
    forall j, t | 0 <= j < |fs.inodes| && 0 <= t < SLOTS
      ensures Addr(r, j, t) == if j == i then 0 else Addr(fs, j, t)
    {
    }
    forall j | 0 <= j < |fs.inodes|
      ensures Exact(r, j, r.inodes[j].size) && (j != i ==> Content(r, j) == Content(fs, j))
    {
      if j != i {
        ExactSame(fs, r, j, fs.inodes[j].size);
      }
    }
  }

  /** Inode i is rewritten with the same addresses and size. */
  lemma UpdateKeeps(fs: Fs, meta: nat, i: int, d: Dinode)
    requires Sound(fs, meta) && Legal(fs, Update(i, d))
    ensures Sound(fs.(inodes := fs.inodes[i := d]), meta)
    ensures forall j {:trigger fs.inodes[j]} :: 0 <= j < |fs.inodes| ==>
      var r := fs.(inodes := fs.inodes[i := d]); Content(r, j) == Content(fs, j)
  {
    var r := fs.(inodes := fs.inodes[i := d]);
    assert Wf(r);
    forall j, t | 0 <= j < |fs.inodes| && 0 <= t < SLOTS
      ensures Addr(r, j, t) == Addr(fs, j, t)
    {
    }
    forall j | 0 <= j < |fs.inodes|
      ensures Exact(r, j, r.inodes[j].size) && Content(r, j) == Content(fs, j)
    {
      ExactSame(fs, r, j, fs.inodes[j].size);
    }
  }

  /** Every operation keeps the file system sound. */
  lemma OpKeeps(fs: Fs, meta: nat, op: Op)
    requires Sound(fs, meta) && Legal(fs, op)
    ensures Did(fs, op).Some? ==> Sound(Did(fs, op).value, meta) && |Did(fs, op).value.inodes| == |fs.inodes|
  {
    hide Sound, Owned, NoHoles, Written;
    assert Wf(fs) by { SoundWf(fs, meta); }
    match op
    case Write(i, off, src) => WriteKeeps(fs, meta, i, off, src);
    case Truncate(i) => TruncateKeeps(fs, meta, i);
    case Create(typ) =>
      if Did(fs, op).Some? {
        ClearedKeeps(fs, meta, FreeInode(fs.inodes, 1), typ);
      }
    case Update(i, d) => UpdateKeeps(fs, meta, i, d);
  }

  lemma SoundWf(fs: Fs, meta: nat)
    requires Sound(fs, meta)
    ensures Wf(fs) && Owned(fs, meta) && NoHoles(fs)
  {
  }

  /** The disk after the operations ops; None when one of them is not legal or panics. */
  ghost function Final(fs: Fs, meta: nat, ops: seq<Op>): (r: Option<Fs>)
    requires Sound(fs, meta)
    ensures r.Some? ==> Sound(r.value, meta) && |r.value.inodes| == |fs.inodes|
    decreases |ops|
  {
    if ops == [] then Some(fs)
    else if !Legal(fs, ops[0]) || Did(fs, ops[0]).None? then None
    else
      OpKeeps(fs, meta, ops[0]);
      Final(Did(fs, ops[0]).value, meta, ops[1..])
  }

  ghost predicate Touches(fs: Fs, op: Op, j: int) {
    match op
    case Write(i, off, src) => i == j
    case Truncate(i) => i == j
    case Create(typ) => 0 < |fs.inodes| && FreeInode(fs.inodes, 1) == j
    case Update(i, d) => false
  }

  lemma OpElsewhere(fs: Fs, meta: nat, op: Op, j: int)
    requires Sound(fs, meta) && Legal(fs, op) && 0 <= j < |fs.inodes| && !Touches(fs, op, j)
    ensures Did(fs, op).Some? ==>
      Sound(Did(fs, op).value, meta) && j < |Did(fs, op).value.inodes|
      && Content(Did(fs, op).value, j) == Content(fs, j)
  {
    hide Owned, Written, Exact;
    SoundWf(fs, meta);
    OpKeeps(fs, meta, op);
    assert Exact(fs, j, fs.inodes[j].size);
    match op
    case Write(i, off, src) => WriteKeeps(fs, meta, i, off, src);
    case Truncate(i) => TruncatedOthers(fs, meta, i, j, fs.inodes[j].size);
    case Create(typ) =>
      if Did(fs, op).Some? {
        ClearedKeeps(fs, meta, FreeInode(fs.inodes, 1), typ);
      }
    case Update(i, d) => UpdateKeeps(fs, meta, i, d);
  }

  /** No operation of the run touches file j. */
  ghost predicate NeverTouched(fs: Fs, meta: nat, ops: seq<Op>, j: int)
    requires Sound(fs, meta) && Final(fs, meta, ops).Some?
    decreases |ops|
  {
    ops == [] || (OpKeeps(fs, meta, ops[0]);
      !Touches(fs, ops[0], j) && NeverTouched(Did(fs, ops[0]).value, meta, ops[1..], j))
  }

  /** A file keeps its contents, byte for byte, through any run of operations on other files. */
  lemma {:induction false} UntouchedFile(fs: Fs, meta: nat, ops: seq<Op>, j: int)
    requires Sound(fs, meta) && 0 <= j < |fs.inodes| && Final(fs, meta, ops).Some? && NeverTouched(fs, meta, ops, j)
    ensures Content(Final(fs, meta, ops).value, j) == Content(fs, j)
    decreases |ops|
  {
    if ops != [] {
      OpKeeps(fs, meta, ops[0]);
      OpElsewhere(fs, meta, ops[0], j);
      UntouchedFile(Did(fs, ops[0]).value, meta, ops[1..], j);
    }
  }

  // ---------------------------------------------------------------- the size of the disk

  /**
   balloc scans whole bitmap blocks, so it can hand out a block number beyond the end of the file system.
   It stays within the first size blocks exactly when one of those is free.
   */
  lemma BallocWithinDisk(bits: seq<bool>, size: nat)
    requires size <= |bits| && Lowest(bits, 0) != NONE
    ensures Lowest(bits, 0) < size <==> exists b :: 0 <= b < size && !bits[b]
  {
    var b := Lowest(bits, 0);
    if b < size {
      assert !bits[b];
    }
  }

  /** With the sizes that mkfs writes, a full disk of 1024 blocks makes balloc return block 1024. */
  lemma BallocBeyondDisk()
    ensures Lowest(seq(BPB, b => b < 1024), 0) == 1024
  {
    var bits := seq(BPB, b => b < 1024);
    assert !bits[1024];
    assert forall b :: 0 <= b < 1024 ==> bits[b];
  }
}
