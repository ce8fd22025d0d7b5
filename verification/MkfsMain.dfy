/** mkfs as a whole (main in mkfs.c): from the files it is given to the disk the kernel starts from. */
module MkfsMain {
  import opened Words
  import opened FsSpec
  import opened FsWrite
  import opened FileSystems
  import opened FsRuns
  import opened MkfsImage

  const DIRSIZ: int := 14
  const T_DIR: int := 1
  const T_FILE: int := 2

  datatype File = File(name: seq<byte>, data: seq<byte>)

  // ---------------------------------------------------------------- what the image should hold

  /** The name without the underscore that keeps the build system from running the program. */
  function Stored(name: seq<byte>): seq<byte> {
    if name != [] && name[0] == 95 then name[1..] else name
  }

  /** A struct dirent: the inode number in two bytes, the name cut or padded to DIRSIZ. */
  function Dirent(inum: nat, name: seq<byte>): (r: seq<byte>)
    ensures |r| == 2 + DIRSIZ
  {
    [inum % 256, inum / 256 % 256] + seq(DIRSIZ, i requires 0 <= i => if i < |name| then name[i] else 0)
  }

  /** The root directory with the first n files in it. */
  function Entries(files: seq<File>, n: nat): (r: seq<byte>)
    requires n <= |files|
    ensures |r| == (2 + n) * 16
  {
    if n == 0 then Dirent(1, [46]) + Dirent(1, [46, 46])
    else Entries(files, n - 1) + Dirent(n + 1, Stored(files[n - 1].name))
  }

  /** Inode i is a file without holes, and c is what it contains. */
  ghost predicate Holds(fs: Fs, i: int, c: seq<byte>) {
    Wf(fs) && 0 <= i < |fs.inodes| && fs.inodes[i].size == |c| && Exact(fs, i, |c|) && Bytes(fs, i, |c|) == c
  }

  ghost predicate Built(fs: Fs, files: seq<File>, n: nat)
    requires n <= |files|
  {
    Holds(fs, 1, Entries(files, n)) && forall k {:trigger files[k]} :: 0 <= k < n ==> Holds(fs, k + 2, files[k].data)
  }

  // ---------------------------------------------------------------- appending

  /** xp has been added to file i and to no other. */
  ghost predicate Appended(fs: Fs, r: Fs, i: int, xp: seq<byte>) {
    && |r.inodes| == |fs.inodes|
    && forall j, c {:trigger Holds(fs, j, c)} :: Holds(fs, j, c) ==> Holds(r, j, if j == i then c + xp else c)
  }

  lemma AppendedWritten(fs: Fs, r: Fs, meta: nat, i: int, xp: seq<byte>)
    requires Sound(fs, meta) && 0 <= i < |fs.inodes| && WriteOk(fs, r, meta, i, fs.inodes[i].size, xp)
    ensures Appended(fs, r, i, xp)
  {
    hide Owned, Exact, Bytes;
    WroteOwned(fs, r, meta, i, xp);
    forall j, c | Holds(fs, j, c)
      ensures Holds(r, j, if j == i then c + xp else c)
    {
      if j == i {
        assert Overwrite(c, |c|, xp) == c + xp;
      } else {
        assert r.inodes[j] == fs.inodes[j];
      }
    }
  }

  lemma WroteOwned(fs: Fs, r: Fs, meta: nat, i: int, xp: seq<byte>)
    requires Sound(fs, meta) && 0 <= i < |fs.inodes| && WriteOk(fs, r, meta, i, fs.inodes[i].size, xp)
    ensures Wf(fs) && Wf(r)
  {
  }

  lemma AppendedTwice(fs: Fs, f: Fs, r: Fs, i: int, a: seq<byte>, b: seq<byte>)
    requires Appended(fs, f, i, a) && Appended(f, r, i, b)
    ensures Appended(fs, r, i, a + b)
  {
    hide Holds;
    forall j, c | Holds(fs, j, c)
      ensures Holds(r, j, if j == i then c + (a + b) else c)
    {
      assert c + a + b == c + (a + b);
      assert Holds(f, j, if j == i then c + a else c);
    }
  }

  lemma AppendedNone(fs: Fs, i: int)
    ensures Appended(fs, fs, i, [])
  {
    hide Holds;
    forall j, c | Holds(fs, j, c)
      ensures Holds(fs, j, if j == i then c + [] else c)
    {
      assert c + [] == c;
    }
  }

  /** An inode that is not in use gets a new record; the files stay as they are and the new one is empty. */
  lemma HoldsIalloc(fs: Fs, r: Fs, meta: nat, inum: int, j: int, c: seq<byte>)
    requires Sound(r, meta) && 0 <= inum < |fs.inodes| == |r.inodes|
    requires r == fs.(inodes := fs.inodes[inum := r.inodes[inum]])
    requires j != inum && Holds(fs, j, c)
    ensures Holds(r, j, c)
  {
    forall t | 0 <= t < SLOTS
      ensures Addr(r, j, t) == Addr(fs, j, t)
    {
    }
    ExactSame(fs, r, j, |c|);
    hide Addr;
    assert forall k {:trigger ByteAt(r, j, k)} :: 0 <= k < |c| ==> ByteAt(r, j, k) == ByteAt(fs, j, k);
  }

  lemma HoldsNothing(fs: Fs, meta: nat, i: int)
    requires Sound(fs, meta) && 0 <= i < |fs.inodes| && fs.inodes[i].size == 0
    ensures Holds(fs, i, [])
  {
    hide Marked, Unshared, FreeZero;
    assert Bytes(fs, i, 0) == [];
  }

  /** The loop of main that copies one file, 512 bytes at a time. */
  method Copy(m: Mkfs, inum: int, data: seq<byte>) returns (ok: bool)
    requires m.Valid() && Sound(m.Abs(), m.meta) && 0 <= inum < |m.dinodes| && m.dinodes[inum].size == 0
    modifies m`freeblock, m`usedblocks, m`image, m`dinodes
    ensures m.Valid() && |m.image| == |old(m.image)|
    ensures ok ==> Sound(m.Abs(), m.meta) && Appended(old(m.Abs()), m.Abs(), inum, data)
    ensures !ok ==> m.freeblock == |m.image| || MAXFILE * BSIZE < |data|
    ensures m.freeblock <= old(m.freeblock) + 2 * Rounds(0, |data|)
  {
    hide Sound, Appended, WriteOk, Did, Legal, Mkfs.Abs, Rounds;
    var p := 0;
    assert data[..0] == [];
    AppendedNone(m.Abs(), inum);
    ChunkRounds(0, 0);
    while p < |data|
      invariant 0 <= p <= |data| && (p < |data| ==> p % BSIZE == 0)
      invariant m.Valid() && Sound(m.Abs(), m.meta) && |m.image| == |old(m.image)|
      invariant inum < |m.dinodes| && m.dinodes[inum].size == p
      invariant Appended(old(m.Abs()), m.Abs(), inum, data[..p])
      invariant m.freeblock <= old(m.freeblock) + 2 * Rounds(0, p)
    {
      var n := Min(|data| - p, BSIZE);
      ChunkRounds(p, n);
      ghost var f := m.Abs();
      AbsFacts(m);
      ok := m.Iappend(inum, data[p..p + n]);
      if !ok {
        RoundsMore(0, p + n, |data|);
        return;
      }
      AbsFacts(m);
      AppendedSize(f, m.Abs(), m.meta, inum, data[p..p + n]);
      AppendedWritten(f, m.Abs(), m.meta, inum, data[p..p + n]);
      AppendedTwice(old(m.Abs()), f, m.Abs(), inum, data[..p], data[p..p + n]);
      assert data[..p] + data[p..p + n] == data[..p + n];
      p := p + n;
    }
    assert data[..p] == data;
    return true;
  }

  lemma AbsFacts(m: Mkfs)
    ensures m.Abs() == Fs(Bump(|m.image|, m.freeblock), m.image, m.dinodes)
  {
  }

  lemma AppendedSize(fs: Fs, r: Fs, meta: nat, i: int, xp: seq<byte>)
    requires Sound(fs, meta) && 0 <= i < |fs.inodes| && WriteOk(fs, r, meta, i, fs.inodes[i].size, xp)
    ensures |r.inodes| == |fs.inodes| && r.inodes[i].size == fs.inodes[i].size + |xp|
    ensures forall j {:trigger r.inodes[j]} :: 0 <= j < |fs.inodes| && j != i ==> r.inodes[j] == fs.inodes[j]
  {
    hide Owned, Exact, Bytes;
  }

  lemma ChunkRounds(p: nat, n: nat)
    requires p % BSIZE == 0 && n <= BSIZE
    ensures Rounds(p, n) <= 1 && Rounds(0, p) + Rounds(p, n) == Rounds(0, p + n) && Rounds(0, 0) == 0
  {
  }

  // ---------------------------------------------------------------- one file more

  /** The blocks that adding a file takes at most: one for its entry, one for each of its own, and indirect blocks. */
  function Need(files: seq<File>, n: nat): (r: nat)
    requires n <= |files|
  {
    if n == 0 then 0 else Need(files, n - 1) + 2 + 2 * (Rounds(0, |files[n - 1].data|) as nat)
  }

  lemma {:induction false} NeedMore(files: seq<File>, n: nat, all: nat)
    requires n <= all <= |files|
    ensures Need(files, n) <= Need(files, all)
    decreases all - n
  {
    if n < all {
      NeedMore(files, n + 1, all);
    }
  }

  /** An entry lies within one block. */
  lemma EntryRounds(n: nat)
    ensures Rounds(n * 16, 16) <= 1
  {
  }

  /** Ialloc, the entry, the data: the new file is there and the others are as they were. */
  lemma BuiltMore(f0: Fs, f1: Fs, f2: Fs, f3: Fs, meta: nat, files: seq<File>, n: nat)
    requires n < |files| && Built(f0, files, n) && Sound(f1, meta) && n + 2 < |f0.inodes| == |f1.inodes|
    requires f1 == f0.(inodes := f0.inodes[n + 2 := f1.inodes[n + 2]]) && f1.inodes[n + 2].size == 0
    requires Appended(f1, f2, 1, Dirent(n + 2, Stored(files[n].name))) && Appended(f2, f3, n + 2, files[n].data)
    ensures Built(f3, files, n + 1)
  {
    hide Sound, Dirent, Stored;
    HoldsIalloc(f0, f1, meta, n + 2, 1, Entries(files, n));
    HoldsNothing(f1, meta, n + 2);
    assert [] + files[n].data == files[n].data;
    forall k | 0 <= k < n
      ensures Holds(f3, k + 2, files[k].data)
    {
      assert Holds(f0, k + 2, files[k].data);
      HoldsIalloc(f0, f1, meta, n + 2, k + 2, files[k].data);
      hide Holds;
      assert Holds(f2, k + 2, files[k].data);
    }
    hide Holds;
    assert Holds(f2, 1, Entries(files, n) + Dirent(n + 2, Stored(files[n].name)));
    assert Holds(f2, n + 2, []);
  }

  /** The body of main's loop over the files. */
  method AddFile(m: Mkfs, files: seq<File>, n: nat) returns (ok: bool)
    requires m.Valid() && Sound(m.Abs(), m.meta) && n < |files| && m.freeinode == n + 2 < |m.dinodes|
    requires Built(m.Abs(), files, n)
    modifies m`freeblock, m`usedblocks, m`image, m`dinodes, m`freeinode
    ensures m.Valid() && |m.image| == |old(m.image)| && m.freeinode == n + 3
    ensures ok ==> Sound(m.Abs(), m.meta) && |m.dinodes| == |old(m.dinodes)| && Built(m.Abs(), files, n + 1)
    ensures !ok ==>
      || m.freeblock == |m.image|
      || MAXFILE * BSIZE < |files[n].data|
      || MAXFILE * BSIZE < (3 + n) * 16
    ensures m.freeblock <= old(m.freeblock) + 2 + 2 * Rounds(0, |files[n].data|)
  {
    hide Sound, Appended, WriteOk, Did, Legal, Rounds, Dirent, Stored, Entries, Cleared;
    ghost var f0 := m.Abs();
    RootSize(f0, files, n);
    ClearedSize(T_FILE);
    RoundsMore(0, 0, |files[n].data|);
    EntryRounds(2 + n);
    var inum := m.Ialloc(T_FILE);
    ghost var f1 := m.Abs();
    ok := m.Iappend(1, Dirent(inum, Stored(files[n].name)));
    if !ok {
      return;
    }
    ghost var f2 := m.Abs();
    AppendedSize(f1, f2, m.meta, 1, Dirent(inum, Stored(files[n].name)));
    AppendedWritten(f1, f2, m.meta, 1, Dirent(inum, Stored(files[n].name)));
    ok := Copy(m, inum, files[n].data);
    if ok {
      SameLength(f2, m.Abs(), inum, files[n].data);
      BuiltMore(f0, f1, f2, m.Abs(), m.meta, files, n);
    }
  }

  lemma SameLength(fs: Fs, r: Fs, i: int, xp: seq<byte>)
    requires Appended(fs, r, i, xp)
    ensures |r.inodes| == |fs.inodes|
  {
  }

  lemma ClearedSize(typ: int)
    ensures Cleared(typ).size == 0
  {
  }

  lemma RootSize(fs: Fs, files: seq<File>, n: nat)
    requires n <= |files| && Built(fs, files, n)
    ensures 1 < |fs.inodes| && fs.inodes[1].size == (2 + n) * 16
  {
  }

  // ---------------------------------------------------------------- the whole

  function Meta(ninodes: nat, size: nat): nat {
    ninodes / IPB + 3 + (size / BPB + 1)
  }

  /** Surely enough room: for the bitmap to be written, in the image, and within every file. */
  predicate Room(ninodes: nat, size: nat, files: seq<File>) {
    && Meta(ninodes, size) + 4 + Need(files, |files|) < 512
    && Meta(ninodes, size) + 4 + Need(files, |files|) < size
    && (2 + |files|) * 16 <= MAXFILE * BSIZE
    && (forall k {:trigger files[k]} :: 0 <= k < |files| ==> |files[k].data| <= MAXFILE * BSIZE)
  }

  /** The root directory, with its two dots. */
  method MakeRoot(m: Mkfs, files: seq<File>) returns (ok: bool)
    requires m.Valid() && Sound(m.Abs(), m.meta) && m.freeinode == 1 < |m.dinodes|
    modifies m`freeblock, m`usedblocks, m`image, m`dinodes, m`freeinode
    ensures m.Valid() && |m.image| == |old(m.image)| && m.freeinode == 2
    ensures ok ==> Sound(m.Abs(), m.meta) && |m.dinodes| == |old(m.dinodes)| && Built(m.Abs(), files, 0)
    ensures !ok ==> m.freeblock == |m.image|
    ensures m.freeblock <= old(m.freeblock) + 4
  {
    hide Sound, Appended, WriteOk, Did, Legal, Rounds, Dirent, Cleared;
    ClearedSize(T_DIR);
    EntryRounds(0);
    EntryRounds(1);
    var root := m.Ialloc(T_DIR);
    ghost var f1 := m.Abs();
    HoldsNothing(f1, m.meta, 1);
    ok := m.Iappend(root, Dirent(root, [46]));
    if !ok {
      return;
    }
    ghost var f2 := m.Abs();
    AppendedSize(f1, f2, m.meta, 1, Dirent(1, [46]));
    AppendedWritten(f1, f2, m.meta, 1, Dirent(1, [46]));
    ok := m.Iappend(root, Dirent(root, [46, 46]));
    if !ok {
      return;
    }
    AppendedSize(f2, m.Abs(), m.meta, 1, Dirent(1, [46, 46]));
    AppendedWritten(f2, m.Abs(), m.meta, 1, Dirent(1, [46, 46]));
    AppendedTwice(f1, f2, m.Abs(), 1, Dirent(1, [46]), Dirent(1, [46, 46]));
    RootBuilt(f1, m.Abs(), files);
  }

  lemma RootBuilt(fs: Fs, r: Fs, files: seq<File>)
    requires Holds(fs, 1, []) && Appended(fs, r, 1, Dirent(1, [46]) + Dirent(1, [46, 46]))
    ensures Built(r, files, 0)
  {
    hide Holds, Dirent;
    assert [] + (Dirent(1, [46]) + Dirent(1, [46, 46])) == Dirent(1, [46]) + Dirent(1, [46, 46]);
  }

  /** A file other than the root is on the finished disk as it was on the image. */
  lemma FinishedHolds(fs: Fs, meta: nat, end: nat, n: nat, j: int, c: seq<byte>)
    requires Sound(fs, meta) && 1 < |fs.inodes| && |fs.bits| <= n < UINT && Holds(fs, j, c)
    ensures var r := Padded(Resized(fs, 1, end), n);
      Wf(r) && j < |r.inodes| && Exact(r, j, |c|) && Bytes(r, j, |c|) == c && (j != 1 ==> Holds(r, j, c))
  {
    hide Marked, Unshared, FreeZero, Exact, Bytes, Padded, Addr;
    ResizedSame(fs, meta, 1, end);
    PaddedKeeps(Resized(fs, 1, end), meta, n);
    PaddedBytes(Resized(fs, 1, end), meta, n, j, |c|);
  }

  lemma FinishedBuilt(fs: Fs, meta: nat, end: nat, n: nat, files: seq<File>)
    requires Sound(fs, meta) && 1 < |fs.inodes| && |fs.bits| <= n < UINT && Built(fs, files, |files|)
    ensures var r, c := Padded(Resized(fs, 1, end), n), Entries(files, |files|);
      && Wf(r) && 1 < |r.inodes| && |c| <= MAXFILE * BSIZE && Bytes(r, 1, |c|) == c
      && forall k {:trigger files[k]} :: 0 <= k < |files| ==> Holds(r, k + 2, files[k].data)
  {
    hide Sound, Padded, Bytes, Entries;
    var c := Entries(files, |files|);
    assert |c| <= MAXFILE * BSIZE && |fs.bits| == |fs.data|;
    hide Exact, Holds;
    FinishedHolds(fs, meta, end, n, 1, c);
    forall k | 0 <= k < |files|
      ensures Holds(Padded(Resized(fs, 1, end), n), k + 2, files[k].data)
    {
      FinishedHolds(fs, meta, end, n, k + 2, files[k].data);
    }
  }

  lemma DiskFacts(fs: FileSystem)
    requires fs.Valid()
    ensures fs.size <= |fs.bitmap| * BPB < fs.size + BPB && fs.Disk().inodes == fs.dinodes
  {
  }

  lemma NeedNext(files: seq<File>, n: nat)
    requires n < |files|
    ensures Need(files, n + 1) == Need(files, n) + 2 + 2 * Rounds(0, |files[n].data|)
  {
  }

  /** With enough room no step of main fails. */
  lemma RoomFacts(ninodes: nat, size: nat, files: seq<File>, n: nat)
    requires n <= |files|
    ensures Room(ninodes, size, files) ==>
      && Meta(ninodes, size) + 4 + Need(files, n) < 512 && Meta(ninodes, size) + 4 + Need(files, n) < size
      && (2 + n) * 16 <= MAXFILE * BSIZE
           && (n < |files| ==> (3 + n) * 16 <= MAXFILE * BSIZE && |files[n].data| <= MAXFILE * BSIZE)
  {
    NeedMore(files, n, |files|);
  }

  /** The part of main that writes the root directory and the files. */
  method Fill(m: Mkfs, size: nat, files: seq<File>) returns (ok: bool)
    requires m.Valid() && Sound(m.Abs(), m.meta) && m.freeinode == 1 && |files| + 2 <= |m.dinodes| && |m.image| == size
    requires m.freeblock == m.meta == Meta(|m.dinodes|, size)
    modifies m`freeblock, m`usedblocks, m`image, m`dinodes, m`freeinode
    ensures m.Valid() && |m.image| == size
    ensures Room(|old(m.dinodes)|, size, files) ==> ok && m.freeblock < 512
    ensures ok ==> Sound(m.Abs(), m.meta) && |m.dinodes| == |old(m.dinodes)| && Built(m.Abs(), files, |files|)
  {
    hide Sound, Built, Room, Need, Mkfs.Abs;
    ghost var ninodes := |m.dinodes|;
    ok := MakeRoot(m, files);
    RoomFacts(ninodes, size, files, 0);
    if !ok {
      return;
    }
    NeedNone(files);
    for n := 0 to |files|
      invariant m.Valid() && Sound(m.Abs(), m.meta) && |m.image| == size && |m.dinodes| == ninodes
      invariant m.freeinode == n + 2 && Built(m.Abs(), files, n)
      invariant m.freeblock <= m.meta + 4 + Need(files, n)
    {
      RoomFacts(ninodes, size, files, n);
      ok := AddFile(m, files, n);
      NeedNext(files, n);
      RoomFacts(ninodes, size, files, n + 1);
      if !ok {
        return;
      }
    }
    RoomFacts(ninodes, size, files, |files|);
    ok := true;
  }

  lemma NeedNone(files: seq<File>)
    ensures Need(files, 0) == 0
  {
  }

  /**
   main: null when an assertion fails or the image is full, surely not when there is room. Otherwise the disk holds
   the root directory with an entry for every file, and the files byte for byte. It satisfies the kernel's invariant
   exactly when two more than the number of files is not a multiple of 32, the entries of a block.
   */
  method Build(nblocks: nat, ninodes: nat, size: nat, files: seq<File>) returns (fs: FileSystem?)
    requires size < INT && nblocks + Meta(ninodes, size) == size && |files| + 2 <= ninodes
    ensures Room(ninodes, size, files) ==> fs != null
    ensures fs != null ==> fresh(fs) && fs.Valid() && fs.size == size && |fs.dinodes| == ninodes && Wf(fs.Disk())
    ensures fs != null ==> (Sound(fs.Disk(), Meta(ninodes, size)) <==> (2 + |files|) % 32 != 0)
    ensures fs != null ==> forall k {:trigger files[k]} :: 0 <= k < |files| ==> Holds(fs.Disk(), k + 2, files[k].data)
    ensures fs != null ==>
      var c := Entries(files, |files|);
      |c| <= MAXFILE * BSIZE && Bytes(fs.Disk(), 1, |c|) == c && fs.dinodes[1].size == (|c| / BSIZE + 1) * BSIZE
  {
    hide Sound, Built, Holds, Room, Need, Entries, Padded, FileSystem.Valid, FileSystem.Disk, Mkfs.Abs, Bytes, Exact;
    hide Meta, Resized, Wf;
    MetaIs(ninodes, size);
    WholeBlocks(2 + |files|);
    var m := new Mkfs(nblocks, ninodes, size);
    var ok := Fill(m, size, files);
    if !ok {
      return null;
    }
    ghost var f := m.Abs();
    AbsFacts(m);
    RootSize(f, files, |files|);
    RoomFacts(ninodes, size, files, |files|);
    fs := m.Finish();
    if fs != null {
      DiskFacts(fs);
      AbsFacts(m);
      RoundedAbs(m, f);
      FinishedBuilt(f, m.meta, m.dinodes[1].size, |fs.bitmap| * BPB, files);
    }
  }

  lemma MetaIs(ninodes: nat, size: nat)
    ensures Meta(ninodes, size) == ninodes / IPB + 3 + (size / BPB + 1)
  {
  }

  lemma WholeBlocks(n: nat)
    ensures n * 16 % BSIZE != 0 <==> n % 32 != 0
  {
  }

  lemma RoundedAbs(m: Mkfs, f: Fs)
    requires m.Valid() && 1 < |m.dinodes| && f.data == m.image && f.bits == Bump(|m.image|, m.freeblock)
    requires |f.inodes| == |m.dinodes| && m.dinodes == f.inodes[1 := f.inodes[1].(size := m.dinodes[1].size)]
    ensures m.Abs() == Resized(f, 1, m.dinodes[1].size) && |f.bits| == |m.image|
  {
  }

  /** With the sizes mkfs has built in, thirty empty files give a disk that does not satisfy the kernel's invariant. */
  method BuildThirty() returns (fs: FileSystem)
    ensures fresh(fs) && fs.Valid() && fs.size == 1024 && !Sound(fs.Disk(), 29)
  {
    hide Sound, Holds, Entries, Bytes, FileSystem.Valid, FileSystem.Disk;
    var files := seq(30, k => File([], []));
    NeedEmpty(files, 30);
    var disk := Build(995, 200, 1024, files);
    return disk;
  }

  lemma {:induction false} NeedEmpty(files: seq<File>, n: nat)
    requires n <= |files| && forall k {:trigger files[k]} :: 0 <= k < |files| ==> files[k].data == []
    ensures Need(files, n) == 2 * n
  {
    if n != 0 {
      NeedEmpty(files, n - 1);
    }
  }
}
