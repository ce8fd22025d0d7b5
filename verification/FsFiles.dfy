/** The disk operations as operations on plain files: a table of types, link counts and byte sequences (fs.c). */
module FsFiles {
  import opened Options
  import opened FsSpec
  import opened FsWrite
  import opened FsTrunc
  import opened FileSystems
  import opened FsRuns

  datatype File = File(typ: int, major: int, minor: int, nlink: int, bytes: seq<byte>)

  /** Inode i without its blocks. */
  ghost function FileAt(fs: Fs, meta: nat, i: int): (f: File)
    requires Sound(fs, meta) && 0 <= i < |fs.inodes|
  {
    var d := fs.inodes[i];
    File(d.typ, d.major, d.minor, d.nlink, Content(fs, i))
  }

  ghost function Files(fs: Fs, meta: nat): (r: seq<File>)
    requires Sound(fs, meta)
    ensures |r| == |fs.inodes|
    ensures forall i {:trigger r[i]} :: 0 <= i < |r| ==> r[i] == FileAt(fs, meta, i)
  {
    seq(|fs.inodes|, i requires 0 <= i < |fs.inodes| => FileAt(fs, meta, i))
  }

  /** i is the first file from 1 on without a type. */
  predicate FirstFree(files: seq<File>, i: int) {
    && 1 <= i < |files| && files[i].typ == 0
    && forall k {:trigger files[k]} :: 1 <= k < i ==> files[k].typ != 0
  }

  /** What an operation does to file j of a table of files. */
  ghost function After(files: seq<File>, op: Op, j: int): (f: File)
    requires 0 <= j < |files|
  {
    var f := files[j];
    match op
    case Write(i, off, src) =>
      if i == j && 0 <= off <= |f.bytes| then f.(bytes := Overwrite(f.bytes, off, src)) else f
    case Truncate(i) => if i == j then f.(bytes := []) else f
    case Create(typ) => if FirstFree(files, j) then File(typ, 0, 0, 0, []) else f
    case Update(i, d) => if i == j then File(d.typ, d.major, d.minor, d.nlink, f.bytes) else f
  }

  ghost function Performed(files: seq<File>, op: Op): (r: seq<File>) {
    seq(|files|, j requires 0 <= j < |files| => After(files, op, j))
  }

  ghost function PerformedAll(files: seq<File>, ops: seq<Op>): (r: seq<File>)
    decreases |ops|
  {
    if ops == [] then files else PerformedAll(Performed(files, ops[0]), ops[1..])
  }

  // ---------------------------------------------------------------- one operation

  lemma SizeOf(fs: Fs, meta: nat, i: int)
    requires Sound(fs, meta) && 0 <= i < |fs.inodes|
    ensures |FileAt(fs, meta, i).bytes| == fs.inodes[i].size
  {
    hide Owned, Exact;
  }

  lemma EmptyContent(fs: Fs, i: int)
    requires Wf(fs) && 0 <= i < |fs.inodes| && Exact(fs, i, 0) && fs.inodes[i].size == 0
    ensures Content(fs, i) == []
  {
  }

  lemma WriteRefines(fs: Fs, meta: nat, i: int, off: int, src: seq<byte>, j: int)
    requires Sound(fs, meta) && Legal(fs, Write(i, off, src)) && 0 <= j < |fs.inodes|
    requires Did(fs, Write(i, off, src)).Some? && Sound(Did(fs, Write(i, off, src)).value, meta)
    ensures |Did(fs, Write(i, off, src)).value.inodes| == |fs.inodes|
    ensures FileAt(Did(fs, Write(i, off, src)).value, meta, j) == After(Files(fs, meta), Write(i, off, src), j)
  {
    hide Owned, Written, Exact, Content, Overwrite;
    WriteKeeps(fs, meta, i, off, src);
    SizeOf(fs, meta, i);
    if i != j {
      OpElsewhere(fs, meta, Write(i, off, src), j);
    }
  }

  lemma TruncateRefines(fs: Fs, meta: nat, i: int, j: int)
    requires Sound(fs, meta) && Legal(fs, Truncate(i)) && 0 <= j < |fs.inodes| && Sound(Truncated(fs, i), meta)
    ensures |Truncated(fs, i).inodes| == |fs.inodes|
    ensures FileAt(Truncated(fs, i), meta, j) == After(Files(fs, meta), Truncate(i), j)
  {
    hide Owned, Exact, Content, DataBlocks, Freed;
    SoundWf(fs, meta);
    if i == j {
      TruncatedOthers(fs, meta, i, i, fs.inodes[i].size);
      EmptyContent(Truncated(fs, i), i);
    } else {
      OpElsewhere(fs, meta, Truncate(i), j);
    }
  }

  lemma FreeIsFirst(fs: Fs, meta: nat, j: int)
    requires Sound(fs, meta) && 0 <= j < |fs.inodes|
    ensures FirstFree(Files(fs, meta), j) <==> FreeInode(fs.inodes, 1) == j
  {
    hide Owned, Exact, Content;
    var files, i := Files(fs, meta), FreeInode(fs.inodes, 1);
    assert forall k {:trigger files[k]} {:trigger fs.inodes[k]} :: 0 <= k < |files| ==>
      files[k].typ == fs.inodes[k].typ;
    if i != NONE {
      assert files[i].typ == 0;
    }
  }

  lemma CreateRefines(fs: Fs, meta: nat, typ: int, j: int)
    requires Sound(fs, meta) && 0 <= j < |fs.inodes|
    requires Did(fs, Create(typ)).Some? && Sound(Did(fs, Create(typ)).value, meta)
    ensures |Did(fs, Create(typ)).value.inodes| == |fs.inodes|
    ensures FileAt(Did(fs, Create(typ)).value, meta, j) == After(Files(fs, meta), Create(typ), j)
  {
    hide Owned, Exact, Content, FirstFree, FreeInode;
    SoundWf(fs, meta);
    FreeIsFirst(fs, meta, j);
    var r := Did(fs, Create(typ)).value;
    if FreeInode(fs.inodes, 1) == j {
      assert Exact(r, j, r.inodes[j].size);
      EmptyContent(r, j);
    } else {
      OpElsewhere(fs, meta, Create(typ), j);
    }
  }

  lemma UpdateRefines(fs: Fs, meta: nat, i: int, d: Dinode, j: int)
    requires Sound(fs, meta) && Legal(fs, Update(i, d)) && 0 <= j < |fs.inodes|
    requires Sound(Did(fs, Update(i, d)).value, meta)
    ensures |Did(fs, Update(i, d)).value.inodes| == |fs.inodes|
    ensures FileAt(Did(fs, Update(i, d)).value, meta, j) == After(Files(fs, meta), Update(i, d), j)
  {
    hide Owned, Exact, Content;
    OpElsewhere(fs, meta, Update(i, d), j);
  }

  /** Every operation on the disk is the operation on files. */
  lemma OpRefines(fs: Fs, meta: nat, op: Op)
    requires Sound(fs, meta) && Legal(fs, op) && Did(fs, op).Some?
    ensures Sound(Did(fs, op).value, meta) && Files(Did(fs, op).value, meta) == Performed(Files(fs, meta), op)
  {
    OpKeeps(fs, meta, op);
    hide Sound, Owned, Written, Files, After, FileAt, Did, Legal;
    var r := Did(fs, op).value;
    forall j | 0 <= j < |fs.inodes|
      ensures Files(r, meta)[j] == After(Files(fs, meta), op, j)
    {
      DidAt(fs, meta, op, j);
    }
  }

  lemma DidAt(fs: Fs, meta: nat, op: Op, j: int)
    requires Sound(fs, meta) && Legal(fs, op) && Did(fs, op).Some? && Sound(Did(fs, op).value, meta)
    requires 0 <= j < |fs.inodes|
    ensures |Did(fs, op).value.inodes| == |fs.inodes|
    ensures FileAt(Did(fs, op).value, meta, j) == After(Files(fs, meta), op, j)
  {
    hide Sound, Owned, Written, Files, After, FileAt;
    SoundWf(fs, meta);
    match op
    case Write(i, off, src) => WriteRefines(fs, meta, i, off, src, j);
    case Truncate(i) => TruncateRefines(fs, meta, i, j);
    case Create(typ) => CreateRefines(fs, meta, typ, j);
    case Update(i, d) => UpdateRefines(fs, meta, i, d, j);
  }

  // ---------------------------------------------------------------- runs

  /** Blocks, bitmap and indirection do not show: every run on the disk is the same run on plain files. */
  lemma {:induction false} RunRefines(fs: Fs, meta: nat, ops: seq<Op>)
    requires Sound(fs, meta) && Final(fs, meta, ops).Some?
    ensures Files(Final(fs, meta, ops).value, meta) == PerformedAll(Files(fs, meta), ops)
    decreases |ops|
  {
    if ops != [] {
      hide Sound, Files, Performed, Did, Legal;
      OpRefines(fs, meta, ops[0]);
      RunRefines(Did(fs, ops[0]).value, meta, ops[1..]);
    }
  }
}
