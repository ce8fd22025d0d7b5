/** Discarding the contents of a file (itrunc and bfree in fs.c). */
module FsTrunc {
  import opened FsSpec
  import opened FsWrite

  /** The data blocks in the slots of inode i below n; the indirect block itself is not one of them. */
  ghost function DataBlocks(fs: Fs, i: int, n: int): (s: set<nat>)
    requires Wf(fs) && 0 <= i < |fs.inodes| && 0 <= n <= SLOTS
  {
    set s | 0 <= s < n && s != INDIRECT && Addr(fs, i, s) != 0 :: Addr(fs, i, s)
  }

  function Blank(d: Dinode): (r: Dinode) {
    d.(size := 0, addrs := seq(NADDRS, k => 0))
  }

  /** bfree of every block of gone: zeroed, then marked free. */
  function Freed(fs: Fs, gone: set<nat>): (r: Fs)
    requires |fs.data| == |fs.bits|
    ensures |r.bits| == |fs.bits| == |r.data| && r.inodes == fs.inodes
    ensures forall b {:trigger r.bits[b]} :: 0 <= b < |fs.bits| ==> (r.bits[b] <==> fs.bits[b] && b !in gone)
    ensures forall b {:trigger r.data[b]} :: 0 <= b < |fs.bits| ==>
      r.data[b] == if b in gone then Zeros() else fs.data[b]
  {
    fs.(bits := seq(|fs.bits|, b requires 0 <= b < |fs.bits| => fs.bits[b] && b !in gone),
        data := seq(|fs.data|, b requires 0 <= b < |fs.data| => if b in gone then Zeros() else fs.data[b]))
  }

  ghost function Truncated(fs: Fs, i: int): (r: Fs)
    requires Wf(fs) && 0 <= i < |fs.inodes|
  {
    Freed(fs, DataBlocks(fs, i, SLOTS)).(inodes := fs.inodes[i := Blank(fs.inodes[i])])
  }

  lemma TruncatedAddr(fs: Fs, meta: nat, i: int, j: int, t: int)
    requires Owned(fs, meta) && 0 <= i < |fs.inodes| && 0 <= j < |fs.inodes| && 0 <= t < SLOTS
    ensures Wf(Truncated(fs, i)) && Addr(Truncated(fs, i), j, t) == if j == i then 0 else Addr(fs, j, t)
  {
    var r := Truncated(fs, i);
    assert Wf(r);
    if j != i && NADDRS <= t {
      var a := fs.inodes[j].addrs[INDIRECT];
      assert Addr(fs, j, INDIRECT) == a;
      assert a !in DataBlocks(fs, i, SLOTS);
    }
  }

  lemma TruncatedKeeps(fs: Fs, meta: nat, i: int)
    requires Owned(fs, meta) && 0 <= i < |fs.inodes|
    ensures Owned(Truncated(fs, i), meta)
  {
    var r := Truncated(fs, i);
    TruncatedAddr(fs, meta, i, i, 0);
    forall j, t | 0 <= j < |fs.inodes| && 0 <= t < SLOTS
      ensures Addr(r, j, t) == if j == i then 0 else Addr(fs, j, t)
    {
      TruncatedAddr(fs, meta, i, j, t);
    }
    forall j, t | 0 <= j < |fs.inodes| && 0 <= t < SLOTS && Addr(r, j, t) != 0
      ensures meta <= Addr(r, j, t) < |r.bits| && r.bits[Addr(r, j, t)]
    {
      assert Addr(fs, j, t) !in DataBlocks(fs, i, SLOTS);
    }
  }

  /** No other file has changed, and file i is empty. */
  lemma TruncatedOthers(fs: Fs, meta: nat, i: int, j: int, len: int)
    requires Owned(fs, meta) && 0 <= i < |fs.inodes| && 0 <= j < |fs.inodes| && Exact(fs, j, len)
    ensures Wf(Truncated(fs, i))
    ensures if j == i then Exact(Truncated(fs, i), j, 0)
      else Exact(Truncated(fs, i), j, len) && Bytes(Truncated(fs, i), j, len) == Bytes(fs, j, len)
  {
    var r := Truncated(fs, i);
    TruncatedAddr(fs, meta, i, i, 0);
    forall t | 0 <= t < SLOTS
      ensures Addr(r, j, t) == if j == i then 0 else Addr(fs, j, t)
    {
      TruncatedAddr(fs, meta, i, j, t);
    }
    if j != i {
      ExactSame(fs, r, j, len);
      forall k | 0 <= k < len
        ensures ByteAt(r, j, k) == ByteAt(fs, j, k)
      {
        var a := Addr(fs, j, SlotOf(k / BSIZE));
        assert a != 0;
        assert a !in DataBlocks(fs, i, SLOTS);
      }
    }
  }

  /** itrunc does not free the indirect block: it stays marked in use although no inode refers to it any more. */
  lemma IndirectLeaks(fs: Fs, meta: nat, i: int)
    requires Owned(fs, meta) && 0 <= i < |fs.inodes| && fs.inodes[i].addrs[INDIRECT] != 0
    ensures var r, a := Truncated(fs, i), fs.inodes[i].addrs[INDIRECT];
      && a < |r.bits| && r.bits[a] && Wf(r)
      && (forall j, t {:trigger Addr(r, j, t)} :: 0 <= j < |r.inodes| && 0 <= t < SLOTS ==> Addr(r, j, t) != a)
  {
    var r, a := Truncated(fs, i), fs.inodes[i].addrs[INDIRECT];
    assert Addr(fs, i, INDIRECT) == a;
    assert a !in DataBlocks(fs, i, SLOTS);
    TruncatedAddr(fs, meta, i, i, 0);
    forall j, t | 0 <= j < |r.inodes| && 0 <= t < SLOTS
      ensures Addr(r, j, t) != a
    {
      TruncatedAddr(fs, meta, i, j, t);
    }
  }

  // ---------------------------------------------------------------- itrunc, one slot at a time

  /** Of all the blocks the file had, exactly the indirect block is still marked afterwards; the others are zero. */
  lemma FreedExactly(fs: Fs, meta: nat, i: int, t: int)
    requires Owned(fs, meta) && 0 <= i < |fs.inodes| && 0 <= t < SLOTS && Addr(fs, i, t) != 0
    ensures var r, a := Truncated(fs, i), Addr(fs, i, t);
      a < |r.bits| == |r.data| && (r.bits[a] <==> t == INDIRECT) && (t != INDIRECT ==> r.data[a] == Zeros())
  {
    var a := Addr(fs, i, t);
    assert a in DataBlocks(fs, i, SLOTS) <==> t != INDIRECT;
  }

  lemma FreedNone(fs: Fs, i: int)
    requires Wf(fs) && 0 <= i < |fs.inodes|
    ensures Freed(fs, DataBlocks(fs, i, 0)) == fs
  {
    var r := Freed(fs, DataBlocks(fs, i, 0));
    assert r.bits == fs.bits && r.data == fs.data;
  }

  /** Freeing the block of the next slot: it is still marked in use, since no earlier slot holds it. */
  lemma FreedOne(fs: Fs, meta: nat, i: int, k: int)
    requires Owned(fs, meta) && 0 <= i < |fs.inodes| && 0 <= k < SLOTS
    ensures var a, r := Addr(fs, i, k), Freed(fs, DataBlocks(fs, i, k));
      if a == 0 || k == INDIRECT then Freed(fs, DataBlocks(fs, i, k + 1)) == r
      else
        && a < |r.bits| && r.bits[a]
        && Freed(fs, DataBlocks(fs, i, k + 1)) == r.(bits := r.bits[a := false], data := r.data[a := Zeros()])
  {
    var a, gone := Addr(fs, i, k), DataBlocks(fs, i, k);
    var r, n := Freed(fs, gone), Freed(fs, DataBlocks(fs, i, k + 1));
    if a == 0 || k == INDIRECT {
      assert DataBlocks(fs, i, k + 1) == gone;
    } else {
      assert a !in gone;
      assert DataBlocks(fs, i, k + 1) == gone + {a};
      assert n.bits == r.bits[a := false];
      assert n.data == r.data[a := Zeros()];
    }
  }

  /** The indirect block is not among the blocks freed before its list is read. */
  lemma ListedBlock(fs: Fs, meta: nat, i: int)
    requires Owned(fs, meta) && 0 <= i < |fs.inodes| && fs.inodes[i].addrs[INDIRECT] != 0
    ensures var a, r := fs.inodes[i].addrs[INDIRECT], Freed(fs, DataBlocks(fs, i, NADDRS));
      a < |fs.data| && r.data[a] == fs.data[a] && forall j {:trigger Word(fs.data[a], j)} :: 0 <= j < NINDIRECT ==>
        Addr(fs, i, NADDRS + j) == Word(fs.data[a], j)
  {
    assert Addr(fs, i, INDIRECT) == fs.inodes[i].addrs[INDIRECT];
    assert fs.inodes[i].addrs[INDIRECT] !in DataBlocks(fs, i, NADDRS);
  }

  lemma NoneListed(fs: Fs, i: int)
    requires Wf(fs) && 0 <= i < |fs.inodes| && fs.inodes[i].addrs[INDIRECT] == 0
    ensures DataBlocks(fs, i, SLOTS) == DataBlocks(fs, i, NADDRS)
  {
    forall a | a in DataBlocks(fs, i, SLOTS)
      ensures a in DataBlocks(fs, i, NADDRS)
    {
      var s :| 0 <= s < SLOTS && s != INDIRECT && Addr(fs, i, s) != 0 && Addr(fs, i, s) == a;
      assert s < NADDRS;
    }
  }
}
