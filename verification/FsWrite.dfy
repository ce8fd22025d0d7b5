/** Block mapping and byte-range writes on the file system as a value (balloc, bmap, writei in fs.c). */
module FsWrite {
  import opened Options
  import opened FsSpec

  const NONE: int := -1

  function Max(a: int, b: int): int {
    if a < b then b else a
  }

  /** The lowest clear bit, which is the one balloc takes. */
  function Lowest(bits: seq<bool>, from: nat): (b: int)
    requires from <= |bits|
    ensures b == NONE ==> forall k :: from <= k < |bits| ==> bits[k]
    ensures b != NONE ==> from <= b < |bits| && !bits[b] && forall k :: from <= k < b ==> bits[k]
    decreases |bits| - from
  {
    if from == |bits| then NONE else if !bits[from] then from else Lowest(bits, from + 1)
  }

  /** The lowest free block goes into slot s of inode i. */
  ghost function Grown(fs: Fs, i: int, s: int): (r: Option<Fs>)
    requires Wf(fs) && 0 <= i < |fs.inodes| && 0 <= s < SLOTS
    requires s < NADDRS || 0 < fs.inodes[i].addrs[INDIRECT] < |fs.data|
  {
    var b := Lowest(fs.bits, 0);
    if b == NONE then None else Some(Attach(fs, i, s, b))
  }

  /** No file has lost its size or any byte below its end. */
  ghost predicate SameElsewhere(fs: Fs, r: Fs)
    requires Wf(fs) && Wf(r)
  {
    && |r.inodes| == |fs.inodes|
    && (forall j {:trigger r.inodes[j]} :: 0 <= j < |fs.inodes| ==>
         r.inodes[j] == fs.inodes[j].(addrs := r.inodes[j].addrs))
    && (forall j, len {:trigger Covers(fs, j, len)} :: 0 <= j < |fs.inodes| && Covers(fs, j, len) ==>
          Covers(r, j, len) && Bytes(r, j, len) == Bytes(fs, j, len))
  }

  /** r is fs with one more address, in slot s of inode i. */
  ghost predicate Grew(fs: Fs, r: Fs, meta: nat, i: int, s: int)
    requires Owned(fs, meta) && 0 <= i < |fs.inodes| && 0 <= s < SLOTS
  {
    && Owned(r, meta) && |r.bits| == |fs.bits|
    && SameElsewhere(fs, r)
    && Addr(r, i, s) != 0
    && (forall j, t {:trigger Addr(r, j, t)} :: 0 <= j < |fs.inodes| && 0 <= t < SLOTS && (j, t) != (i, s) ==>
         Addr(r, j, t) == Addr(fs, j, t))
  }

  lemma GrownKeeps(fs: Fs, meta: nat, i: int, s: int)
    requires Owned(fs, meta) && 0 <= i < |fs.inodes| && 0 <= s < SLOTS && Addr(fs, i, s) == 0
    requires s < NADDRS || 0 < fs.inodes[i].addrs[INDIRECT] < |fs.data|
    ensures Grown(fs, i, s).Some? ==> Grew(fs, Grown(fs, i, s).value, meta, i, s)
  {
    var b := Lowest(fs.bits, 0);
    if b != NONE {
      AttachKeeps(fs, meta, i, s, b);
      var r := Attach(fs, i, s, b);
      forall j, t | 0 <= j < |fs.inodes| && 0 <= t < SLOTS
        ensures Addr(r, j, t) == if (j, t) == (i, s) then b else Addr(fs, j, t)
      {
        AttachAddr(fs, meta, i, s, b, j, t);
      }
      forall j, len | 0 <= j < |fs.inodes| && Covers(fs, j, len)
        ensures Covers(r, j, len) && Bytes(r, j, len) == Bytes(fs, j, len)
      {
        AttachBytes(fs, meta, i, s, b, j, len);
      }
    }
  }

  /** The file system after bmap has been asked to allocate the n-th block of file i. */
  ghost function Mapped(fs: Fs, i: int, n: int): (r: Option<Fs>)
    requires Wf(fs) && 0 <= i < |fs.inodes| && 0 <= n < MAXFILE
  {
    if n < NDIRECT then
      if fs.inodes[i].addrs[n] != 0 then Some(fs) else Grown(fs, i, n)
    else
      var withIndirect := if fs.inodes[i].addrs[INDIRECT] != 0 then Some(fs) else Grown(fs, i, INDIRECT);
      if withIndirect.None? then None
      else
        var f := withIndirect.value;
        if !(Wf(f) && |f.inodes| == |fs.inodes| && 0 < f.inodes[i].addrs[INDIRECT] < |f.data|) then None
        else if Addr(f, i, SlotOf(n)) != 0 then Some(f) else Grown(f, i, SlotOf(n))
  }

  /** Mapping one more block of file i, at the end of the file or below it. */
  ghost predicate MappedOk(fs: Fs, r: Fs, meta: nat, i: int, n: int, len: int, end: int)
    requires Owned(fs, meta) && 0 <= i < |fs.inodes| && 0 <= n < MAXFILE
  {
    && Owned(r, meta) && |r.bits| == |fs.bits|
    && SameElsewhere(fs, r)
    && Addr(r, i, SlotOf(n)) != 0
    && Exact(r, i, Max(len, end))
    && (forall j, t {:trigger Addr(r, j, t)} :: 0 <= j < |fs.inodes| && 0 <= t < SLOTS && j != i ==>
         Addr(r, j, t) == Addr(fs, j, t))
  }

  lemma ExactStretch(fs: Fs, i: int, n: int, len: int, end: int)
    requires Wf(fs) && 0 <= i < |fs.inodes| && 0 <= n < MAXFILE
    requires Exact(fs, i, len) && n * BSIZE < len && n * BSIZE < end <= (n + 1) * BSIZE
    ensures Exact(fs, i, Max(len, end))
  {
  }

  lemma ExactGrown(fs: Fs, r: Fs, i: int, n: int, end: int)
    requires Wf(fs) && Wf(r) && 0 <= i < |fs.inodes| == |r.inodes| && 0 <= n < MAXFILE
    requires Exact(fs, i, n * BSIZE) && n * BSIZE < end <= (n + 1) * BSIZE
    requires Addr(r, i, SlotOf(n)) != 0
    requires forall t {:trigger Addr(r, i, t)} :: 0 <= t < SLOTS && t != SlotOf(n) && t != INDIRECT ==>
      Addr(r, i, t) == Addr(fs, i, t)
    requires r.inodes[i].addrs[INDIRECT] != 0 <==> fs.inodes[i].addrs[INDIRECT] != 0 || NDIRECT <= n
    ensures Exact(r, i, end)
  {
    forall m | 0 <= m < MAXFILE
      ensures Addr(r, i, SlotOf(m)) != 0 <==> m * BSIZE < end
    {
      if m != n {
        assert Addr(r, i, SlotOf(m)) == Addr(fs, i, SlotOf(m));
      }
    }
  }

  lemma MappedDirect(fs: Fs, r: Fs, meta: nat, i: int, n: int, len: int, end: int)
    requires Owned(fs, meta) && 0 <= i < |fs.inodes| && 0 <= n < MAXFILE && Addr(fs, i, SlotOf(n)) == 0
    requires Exact(fs, i, len) && n * BSIZE <= len && n * BSIZE < end <= (n + 1) * BSIZE
    requires Grew(fs, r, meta, i, SlotOf(n)) && (NDIRECT <= n ==> fs.inodes[i].addrs[INDIRECT] != 0)
    ensures MappedOk(fs, r, meta, i, n, len, end)
  {
    hide Owned, SameElsewhere;
    assert len == n * BSIZE;
    assert Wf(r) && Wf(fs) && |r.inodes| == |fs.inodes| by { WfOf(fs, r, meta); }
    assert Addr(fs, i, INDIRECT) == fs.inodes[i].addrs[INDIRECT] && Addr(r, i, INDIRECT) == r.inodes[i].addrs[INDIRECT];
    ExactGrown(fs, r, i, n, end);
  }

  lemma WfOf(fs: Fs, r: Fs, meta: nat)
    requires Owned(fs, meta) && Owned(r, meta) && SameElsewhere(fs, r)
    ensures Wf(fs) && Wf(r) && |r.inodes| == |fs.inodes|
  {
  }

  /** Both the indirect block and the first block it lists are attached. */
  lemma MappedTwice(fs: Fs, f: Fs, r: Fs, meta: nat, i: int, n: int, len: int, end: int)
    requires Owned(fs, meta) && 0 <= i < |fs.inodes| && NDIRECT <= n < MAXFILE
    requires Exact(fs, i, len) && n * BSIZE <= len && n * BSIZE < end <= (n + 1) * BSIZE
    requires fs.inodes[i].addrs[INDIRECT] == 0
    requires Grew(fs, f, meta, i, INDIRECT) && Grew(f, r, meta, i, SlotOf(n))
    ensures MappedOk(fs, r, meta, i, n, len, end)
  {
    hide Owned;
    assert len == n * BSIZE;
    WfOf(fs, f, meta);
    WfOf(f, r, meta);
    assert Addr(r, i, INDIRECT) == r.inodes[i].addrs[INDIRECT] && Addr(f, i, INDIRECT) == f.inodes[i].addrs[INDIRECT];
    hide SameElsewhere;
    ExactGrown(fs, r, i, n, end);
    SameTrans(fs, f, r);
  }

  lemma SameTrans(fs: Fs, f: Fs, r: Fs)
    requires Wf(fs) && Wf(f) && Wf(r) && SameElsewhere(fs, f) && SameElsewhere(f, r)
    ensures SameElsewhere(fs, r)
  {
  }

  lemma MappedKeeps(fs: Fs, meta: nat, i: int, n: int, len: int, end: int)
    requires Owned(fs, meta) && 0 <= i < |fs.inodes| && 0 <= n < MAXFILE
    requires Exact(fs, i, len) && n * BSIZE <= len && n * BSIZE < end <= (n + 1) * BSIZE
    ensures Mapped(fs, i, n).Some? ==> MappedOk(fs, Mapped(fs, i, n).value, meta, i, n, len, end)
  {
    hide Marked, Unshared, FreeZero, Grown, Grew, MappedOk;
    var s := SlotOf(n);
    if Addr(fs, i, s) != 0 {
      MappedAlready(fs, meta, i, n, len, end);
    } else if n < NDIRECT {
      GrownKeeps(fs, meta, i, s);
      if Grown(fs, i, s).Some? {
        MappedDirect(fs, Grown(fs, i, s).value, meta, i, n, len, end);
      }
    } else if fs.inodes[i].addrs[INDIRECT] != 0 {
      if Mapped(fs, i, n).Some? {
        GrownKeeps(fs, meta, i, s);
        MappedDirect(fs, Grown(fs, i, s).value, meta, i, n, len, end);
      }
    } else {
      assert Addr(fs, i, INDIRECT) == 0;
      GrownKeeps(fs, meta, i, INDIRECT);
      if Mapped(fs, i, n).Some? {
        var f := Grown(fs, i, INDIRECT).value;
        GrewAddr(fs, f, meta, i, INDIRECT, s);
        GrownKeeps(f, meta, i, s);
        MappedTwice(fs, f, Grown(f, i, s).value, meta, i, n, len, end);
      }
    }
  }

  lemma GrewAddr(fs: Fs, f: Fs, meta: nat, i: int, s: int, t: int)
    requires Owned(fs, meta) && 0 <= i < |fs.inodes| && 0 <= s < SLOTS && 0 <= t < SLOTS && t != s
    requires Grew(fs, f, meta, i, s)
    ensures Owned(f, meta) && |f.inodes| == |fs.inodes| && Addr(f, i, t) == Addr(fs, i, t)
  {
  }

  lemma MappedAlready(fs: Fs, meta: nat, i: int, n: int, len: int, end: int)
    requires Owned(fs, meta) && 0 <= i < |fs.inodes| && 0 <= n < MAXFILE && Addr(fs, i, SlotOf(n)) != 0
    requires Exact(fs, i, len) && n * BSIZE <= len && n * BSIZE < end <= (n + 1) * BSIZE
    ensures MappedOk(fs, fs, meta, i, n, len, end) && Mapped(fs, i, n) == Some(fs)
  {
    ExactStretch(fs, i, n, len, end);
    assert Addr(fs, i, INDIRECT) == fs.inodes[i].addrs[INDIRECT];
  }

  // ---------------------------------------------------------------- writing into a mapped block

  function Patched(b: Block, lo: int, chunk: seq<byte>): (r: Block)
    requires 0 <= lo && lo + |chunk| <= BSIZE
    ensures forall k {:trigger r[k]} :: 0 <= k < BSIZE ==>
      r[k] == if lo <= k < lo + |chunk| then chunk[k - lo] else b[k]
  {
    b[..lo] + chunk + b[lo + |chunk|..]
  }

  /** memmove of chunk into block a at lo, and bwrite. */
  function Poked(fs: Fs, a: nat, lo: int, chunk: seq<byte>): (r: Fs)
    requires a < |fs.data| && 0 <= lo && lo + |chunk| <= BSIZE
  {
    fs.(data := fs.data[a := Patched(fs.data[a], lo, chunk)])
  }

  /** c with s written over it at off, extended if need be. */
  function Overwrite(c: seq<byte>, off: int, s: seq<byte>): (r: seq<byte>)
    requires 0 <= off <= |c|
    ensures |r| == Max(|c|, off + |s|)
    ensures forall k {:trigger r[k]} :: 0 <= k < |r| ==> r[k] == if off <= k < off + |s| then s[k - off] else c[k]
  {
    c[..off] + s + (if off + |s| < |c| then c[off + |s|..] else [])
  }

  lemma PokedAddr(fs: Fs, meta: nat, i: int, n: int, lo: int, chunk: seq<byte>, j: int, t: int)
    requires Owned(fs, meta) && 0 <= i < |fs.inodes| && 0 <= n < MAXFILE && Addr(fs, i, SlotOf(n)) != 0
    requires 0 <= lo && lo + |chunk| <= BSIZE && 0 <= j < |fs.inodes| && 0 <= t < SLOTS
    ensures Addr(fs, i, SlotOf(n)) < |fs.data|
    ensures var r := Poked(fs, Addr(fs, i, SlotOf(n)), lo, chunk); Wf(r) && Addr(r, j, t) == Addr(fs, j, t)
  {
    assert Addr(fs, j, INDIRECT) == fs.inodes[j].addrs[INDIRECT];
  }

  lemma PokedKeeps(fs: Fs, meta: nat, i: int, n: int, lo: int, chunk: seq<byte>)
    requires Owned(fs, meta) && 0 <= i < |fs.inodes| && 0 <= n < MAXFILE && Addr(fs, i, SlotOf(n)) != 0
    requires 0 <= lo && lo + |chunk| <= BSIZE
    ensures Addr(fs, i, SlotOf(n)) < |fs.data| && Owned(Poked(fs, Addr(fs, i, SlotOf(n)), lo, chunk), meta)
  {
    PokedAddr(fs, meta, i, n, lo, chunk, i, 0);
    var r := Poked(fs, Addr(fs, i, SlotOf(n)), lo, chunk);
    forall j, t | 0 <= j < |fs.inodes| && 0 <= t < SLOTS
      ensures Addr(r, j, t) == Addr(fs, j, t)
    {
      PokedAddr(fs, meta, i, n, lo, chunk, j, t);
    }
  }

  lemma PokedByte(fs: Fs, meta: nat, i: int, n: int, lo: int, chunk: seq<byte>, j: int, k: int)
    requires Owned(fs, meta) && 0 <= i < |fs.inodes| && 0 <= n < MAXFILE && Addr(fs, i, SlotOf(n)) != 0
    requires 0 <= lo && lo + |chunk| <= BSIZE && 0 <= j < |fs.inodes| && 0 <= k < MAXFILE * BSIZE
      && Addr(fs, j, SlotOf(k / BSIZE)) != 0
    ensures Addr(fs, i, SlotOf(n)) < |fs.data| && Wf(Poked(fs, Addr(fs, i, SlotOf(n)), lo, chunk))
    ensures ByteAt(Poked(fs, Addr(fs, i, SlotOf(n)), lo, chunk), j, k) ==
      if j == i && n * BSIZE + lo <= k < n * BSIZE + lo + |chunk| then chunk[k - n * BSIZE - lo] else ByteAt(fs, j, k)
  {
    PokedAddr(fs, meta, i, n, lo, chunk, j, SlotOf(k / BSIZE));
    var q := k / BSIZE;
    assert k == q * BSIZE + k % BSIZE;
    if j == i && q == n {
    } else {
      assert SlotOf(q) == SlotOf(n) ==> q == n;
      assert Addr(fs, j, SlotOf(q)) != Addr(fs, i, SlotOf(n));
    }
  }

  // ---------------------------------------------------------------- one round of writei

  /** The block of file i at off is mapped, and chunk written into it. */
  ghost function ChunkWritten(fs: Fs, i: int, off: int, chunk: seq<byte>): (r: Option<Fs>)
    requires Wf(fs) && 0 <= i < |fs.inodes| && 0 <= off < MAXFILE * BSIZE && off % BSIZE + |chunk| <= BSIZE
  {
    var m := Mapped(fs, i, off / BSIZE);
    if m.None? || !Wf(m.value) || |m.value.inodes| != |fs.inodes| then None
    else
      var a := Addr(m.value, i, SlotOf(off / BSIZE));
      if a < |m.value.data| then Some(Poked(m.value, a, off % BSIZE, chunk)) else None
  }

  /** Nothing of any other inode has changed, and of inode i only the addresses. */
  ghost predicate OthersSame(fs: Fs, r: Fs, i: int)
    requires Wf(fs) && Wf(r) && 0 <= i < |fs.inodes|
  {
    && |r.inodes| == |fs.inodes|
    && r.inodes[i] == fs.inodes[i].(addrs := r.inodes[i].addrs)
    && (forall j {:trigger r.inodes[j]} :: 0 <= j < |fs.inodes| && j != i ==> r.inodes[j] == fs.inodes[j])
    && (forall j, len {:trigger Exact(fs, j, len)} :: 0 <= j < |fs.inodes| && j != i && Exact(fs, j, len) ==>
          Exact(r, j, len) && Bytes(r, j, len) == Bytes(fs, j, len))
  }

  lemma MappedOthers(fs: Fs, r: Fs, meta: nat, i: int, n: int, len: int, end: int)
    requires Owned(fs, meta) && 0 <= i < |fs.inodes| && 0 <= n < MAXFILE
    requires MappedOk(fs, r, meta, i, n, len, end)
    ensures Wf(fs) && Wf(r) && OthersSame(fs, r, i)
  {
    forall j | 0 <= j < |fs.inodes| && j != i
      ensures r.inodes[j] == fs.inodes[j]
    {
      forall t | 0 <= t < NADDRS
        ensures r.inodes[j].addrs[t] == fs.inodes[j].addrs[t]
      {
        assert Addr(r, j, t) == Addr(fs, j, t);
      }
      assert r.inodes[j].addrs == fs.inodes[j].addrs;
    }
    forall j, l | 0 <= j < |fs.inodes| && j != i && Exact(fs, j, l)
      ensures Exact(r, j, l) && Bytes(r, j, l) == Bytes(fs, j, l)
    {
      assert Covers(fs, j, l);
      ExactSame(fs, r, j, l);
    }
  }

  lemma ExactSame(fs: Fs, r: Fs, j: int, l: int)
    requires Wf(fs) && Wf(r) && 0 <= j < |fs.inodes| == |r.inodes| && Exact(fs, j, l)
    requires forall t {:trigger Addr(r, j, t)} :: 0 <= t < SLOTS ==> Addr(r, j, t) == Addr(fs, j, t)
    ensures Exact(r, j, l)
  {
    assert Addr(r, j, INDIRECT) == Addr(fs, j, INDIRECT);
    forall n | 0 <= n < MAXFILE
      ensures Addr(r, j, SlotOf(n)) == Addr(fs, j, SlotOf(n))
    {
    }
  }

  lemma PokedOthers(fs: Fs, meta: nat, i: int, n: int, lo: int, chunk: seq<byte>)
    requires Owned(fs, meta) && 0 <= i < |fs.inodes| && 0 <= n < MAXFILE && Addr(fs, i, SlotOf(n)) != 0
    requires 0 <= lo && lo + |chunk| <= BSIZE
    ensures Addr(fs, i, SlotOf(n)) < |fs.data|
    ensures var r := Poked(fs, Addr(fs, i, SlotOf(n)), lo, chunk);
      && Wf(r) && OthersSame(fs, r, i)
      && (forall len {:trigger Exact(fs, i, len)} :: Exact(fs, i, len) ==> Exact(r, i, len))
  {
    PokedAddr(fs, meta, i, n, lo, chunk, i, 0);
    var r := Poked(fs, Addr(fs, i, SlotOf(n)), lo, chunk);
    forall j, t | 0 <= j < |fs.inodes| && 0 <= t < SLOTS
      ensures Addr(r, j, t) == Addr(fs, j, t)
    {
      PokedAddr(fs, meta, i, n, lo, chunk, j, t);
    }
    forall j, len | 0 <= j < |fs.inodes| && Exact(fs, j, len)
      ensures Exact(r, j, len) && (j != i ==> Bytes(r, j, len) == Bytes(fs, j, len))
    {
      ExactSame(fs, r, j, len);
      if j != i {
        forall k | 0 <= k < len
          ensures ByteAt(r, j, k) == ByteAt(fs, j, k)
        {
          PokedByte(fs, meta, i, n, lo, chunk, j, k);
        }
      }
    }
  }

  /** The bytes of file i after the poke, when the file ends at len and the poke at or below it. */
  lemma PokedBytes(fs: Fs, meta: nat, i: int, n: int, lo: int, chunk: seq<byte>, len: int)
    requires Owned(fs, meta) && 0 <= i < |fs.inodes| && 0 <= n < MAXFILE && Addr(fs, i, SlotOf(n)) != 0
    requires 0 <= lo && lo + |chunk| <= BSIZE && Exact(fs, i, len) && n * BSIZE + lo + |chunk| <= len
    ensures Addr(fs, i, SlotOf(n)) < |fs.data| && Wf(Poked(fs, Addr(fs, i, SlotOf(n)), lo, chunk))
    ensures Bytes(Poked(fs, Addr(fs, i, SlotOf(n)), lo, chunk), i, len) ==
      Overwrite(Bytes(fs, i, len), n * BSIZE + lo, chunk)
  {
    PokedAddr(fs, meta, i, n, lo, chunk, i, 0);
    var r := Poked(fs, Addr(fs, i, SlotOf(n)), lo, chunk);
    forall k | 0 <= k < len
      ensures Bytes(r, i, len)[k] == Overwrite(Bytes(fs, i, len), n * BSIZE + lo, chunk)[k]
    {
      PokedByte(fs, meta, i, n, lo, chunk, i, k);
    }
  }

  lemma OthersTrans(fs: Fs, f: Fs, r: Fs, i: int)
    requires Wf(fs) && Wf(f) && Wf(r) && 0 <= i < |fs.inodes| && OthersSame(fs, f, i) && OthersSame(f, r, i)
    ensures OthersSame(fs, r, i)
  {
  }

  ghost predicate ChunkOk(fs: Fs, r: Fs, meta: nat, i: int, off: int, chunk: seq<byte>, len: int)
    requires Owned(fs, meta) && 0 <= i < |fs.inodes| && 0 <= off <= len && Exact(fs, i, len)
  {
    && Owned(r, meta) && |r.bits| == |fs.bits|
    && OthersSame(fs, r, i)
    && Exact(r, i, Max(len, off + |chunk|))
    && Bytes(r, i, Max(len, off + |chunk|)) == Overwrite(Bytes(fs, i, len), off, chunk)
    && (off + |chunk| <= len ==> r.inodes == fs.inodes)
  }

  /** One round of writei overwrites or extends exactly its range, and nothing else of any file. */
  lemma ChunkKeeps(fs: Fs, meta: nat, i: int, off: int, chunk: seq<byte>, len: int)
    requires Owned(fs, meta) && 0 <= i < |fs.inodes| && Exact(fs, i, len)
    requires 0 <= off <= len && 0 < |chunk| && off < MAXFILE * BSIZE && off % BSIZE + |chunk| <= BSIZE
    ensures ChunkWritten(fs, i, off, chunk).Some? ==>
      ChunkOk(fs, ChunkWritten(fs, i, off, chunk).value, meta, i, off, chunk, len)
  {
    var n, lo, end := off / BSIZE, off % BSIZE, off + |chunk|;
    assert off == n * BSIZE + lo;
    MappedKeeps(fs, meta, i, n, len, end);
    if ChunkWritten(fs, i, off, chunk).Some? {
      var f := Mapped(fs, i, n).value;
      var r := ChunkWritten(fs, i, off, chunk).value;
      ChunkSteps(fs, f, meta, i, n, lo, chunk, len);
    }
  }

  lemma ChunkSteps(fs: Fs, f: Fs, meta: nat, i: int, n: int, lo: int, chunk: seq<byte>, len: int)
    requires Owned(fs, meta) && 0 <= i < |fs.inodes| && Exact(fs, i, len) && 0 <= n < MAXFILE
    requires 0 <= lo && 0 < |chunk| && lo + |chunk| <= BSIZE && n * BSIZE + lo <= len
    requires Mapped(fs, i, n) == Some(f) && MappedOk(fs, f, meta, i, n, len, n * BSIZE + lo + |chunk|)
    ensures Addr(f, i, SlotOf(n)) < |f.data|
    ensures ChunkOk(fs, Poked(f, Addr(f, i, SlotOf(n)), lo, chunk), meta, i, n * BSIZE + lo, chunk, len)
  {
    hide Marked, Unshared, FreeZero, Exact;
    var off := n * BSIZE + lo;
    var whole := Max(len, off + |chunk|);
    MappedOthers(fs, f, meta, i, n, len, off + |chunk|);
    PokedKeeps(f, meta, i, n, lo, chunk);
    PokedOthers(f, meta, i, n, lo, chunk);
    PokedBytes(f, meta, i, n, lo, chunk, whole);
    var r := Poked(f, Addr(f, i, SlotOf(n)), lo, chunk);
    OthersTrans(fs, f, r, i);
    ExactCovers(fs, i, len);
    assert Bytes(f, i, len) == Bytes(fs, i, len);
    assert Bytes(r, i, whole) == Overwrite(Bytes(fs, i, len), off, chunk);
    if off + |chunk| <= len {
      BelowEnd(fs, meta, i, n, len);
    }
  }

  lemma ExactCovers(fs: Fs, i: int, len: int)
    requires Wf(fs) && 0 <= i < |fs.inodes| && Exact(fs, i, len)
    ensures Covers(fs, i, len) && 0 <= len <= MAXFILE * BSIZE
  {
  }

  lemma BelowEnd(fs: Fs, meta: nat, i: int, n: int, len: int)
    requires Owned(fs, meta) && 0 <= i < |fs.inodes| && Exact(fs, i, len) && 0 <= n < MAXFILE && n * BSIZE < len
    ensures Mapped(fs, i, n) == Some(fs)
  {
    assert Addr(fs, i, SlotOf(n)) != 0;
    assert Addr(fs, i, INDIRECT) == fs.inodes[i].addrs[INDIRECT];
  }

  // ---------------------------------------------------------------- the whole of writei

  function Min(a: int, b: int): int {
    if a < b then a else b
  }

  /** The size of the next round of readi or writei: up to the end of the block or of the request. */
  function Round(off: int, left: int): (m: int)
    requires 0 <= off && 0 < left
    ensures 0 < m <= left && off % BSIZE + m <= BSIZE
  {
    Min(left, BSIZE - off % BSIZE)
  }

  /** The rounds of writei, from off to the end of src. */
  ghost function Written(fs: Fs, i: int, off: int, src: seq<byte>): (r: Option<Fs>)
    requires Wf(fs) && 0 <= i < |fs.inodes| && 0 <= off && off + |src| <= MAXFILE * BSIZE
    decreases |src|
  {
    if src == [] then Some(fs)
    else
      var m := Round(off, |src|);
      var f := ChunkWritten(fs, i, off, src[..m]);
      if f.None? || !Wf(f.value) || |f.value.inodes| != |fs.inodes| then None
      else Written(f.value, i, off + m, src[m..])
  }

  /** One round of the loop: what is left of src from tot on has lost its first m bytes. */
  lemma WrittenStep(fs: Fs, i: int, off: int, src: seq<byte>, tot: int, r: int)
    requires Wf(fs) && 0 <= i < |fs.inodes| && 0 <= off && 0 <= tot < r <= |src| && off + (r - tot) <= MAXFILE * BSIZE
    ensures off < MAXFILE * BSIZE
    ensures var m := Round(off, r - tot);
      var f := ChunkWritten(fs, i, off, src[tot..tot + m]);
      && (f.None? ==> Written(fs, i, off, src[tot..r]).None?)
      && (f.Some? && Wf(f.value) && |f.value.inodes| == |fs.inodes| ==>
            Written(fs, i, off, src[tot..r]) == Written(f.value, i, off + m, src[tot + m..r]))
  {
    hide ChunkWritten;
    var m := Round(off, r - tot);
    assert src[tot..r][..m] == src[tot..tot + m] && src[tot..r][m..] == src[tot + m..r];
  }

  lemma WrittenEnd(fs: Fs, i: int, off: int, src: seq<byte>)
    requires Wf(fs) && 0 <= i < |fs.inodes| && 0 <= off <= MAXFILE * BSIZE && src == []
    ensures Written(fs, i, off, src) == Some(fs)
  {
  }

  lemma OverwriteTwice(c: seq<byte>, off: int, s: seq<byte>, t: seq<byte>)
    requires 0 <= off <= |c|
    ensures off + |s| <= |Overwrite(c, off, s)|
    ensures Overwrite(Overwrite(c, off, s), off + |s|, t) == Overwrite(c, off, s + t)
  {
  }

  /** Two adjacent writes are one. */
  lemma ChunkTrans(fs: Fs, f: Fs, r: Fs, meta: nat, i: int, off: int, s: seq<byte>, t: seq<byte>, len: int)
    requires Owned(fs, meta) && 0 <= i < |fs.inodes| && 0 <= off <= len && Exact(fs, i, len)
    requires ChunkOk(fs, f, meta, i, off, s, len) && ChunkOk(f, r, meta, i, off + |s|, t, Max(len, off + |s|))
    ensures ChunkOk(fs, r, meta, i, off, s + t, len)
  {
    hide Marked, Unshared, FreeZero, Exact, OthersSame;
    OthersTrans(fs, f, r, i);
    ExactCovers(fs, i, len);
    OverwriteTwice(Bytes(fs, i, len), off, s, t);
  }

  lemma ChunkNone(fs: Fs, meta: nat, i: int, off: int, len: int)
    requires Owned(fs, meta) && 0 <= i < |fs.inodes| && 0 <= off <= len && Exact(fs, i, len)
    ensures ChunkOk(fs, fs, meta, i, off, [], len)
  {
    assert Overwrite(Bytes(fs, i, len), off, []) == Bytes(fs, i, len);
  }

  lemma ChunkShape(fs: Fs, f: Fs, meta: nat, i: int, off: int, s: seq<byte>, len: int)
    requires Owned(fs, meta) && 0 <= i < |fs.inodes| && 0 <= off <= len && Exact(fs, i, len)
    requires ChunkOk(fs, f, meta, i, off, s, len)
    ensures Owned(f, meta) && |f.inodes| == |fs.inodes| && Exact(f, i, Max(len, off + |s|))
  {
  }

  /** writei, from off to the end of src: the byte sequence of file i is overwritten or extended, nothing else. */
  lemma {:induction false} WrittenKeeps(fs: Fs, meta: nat, i: int, off: int, src: seq<byte>, len: int)
    requires Owned(fs, meta) && 0 <= i < |fs.inodes| && Exact(fs, i, len)
    requires 0 <= off <= len && off + |src| <= MAXFILE * BSIZE
    ensures Written(fs, i, off, src).Some? ==> ChunkOk(fs, Written(fs, i, off, src).value, meta, i, off, src, len)
    decreases |src|
  {
    hide Marked, Unshared, FreeZero, Exact, OthersSame, ChunkOk, ChunkWritten;
    if src == [] {
      ChunkNone(fs, meta, i, off, len);
    } else if Written(fs, i, off, src).Some? {
      var m := Round(off, |src|);
      ChunkKeeps(fs, meta, i, off, src[..m], len);
      var f := ChunkWritten(fs, i, off, src[..m]).value;
      ChunkShape(fs, f, meta, i, off, src[..m], len);
      WrittenKeeps(f, meta, i, off + m, src[m..], Max(len, off + m));
      ChunkTrans(fs, f, Written(fs, i, off, src).value, meta, i, off, src[..m], src[m..], len);
      assert src[..m] + src[m..] == src;
    }
  }
}
