/** The user-level allocator of Kernighan and Ritchie (umalloc.c): a circular list of free blocks in address order. */
module Umalloc {
  import opened Options
  import opened Words
  import opened KallocSpec

  const HSIZE: int := 8
  const PAGE: int := 4096

  /** union header: the link and the size, in headers, of a block. */
  datatype Header = Header(ptr: int, size: int)

  /** The nodes of the ring: the base, of size 0 and below all heap memory, then the free blocks. */
  function Nodes(base: int, rs: seq<Run>): (ns: seq<Run>)
    ensures |ns| == |rs| + 1
  {
    [Run(base, 0)] + rs
  }

  function AddrAfter(ns: seq<Run>, i: int): int
    requires 0 <= i < |ns|
  {
    if i + 1 < |ns| then ns[i + 1].addr else ns[0].addr
  }

  /** The free blocks are in address order, fully coalesced, above the base. */
  ghost predicate Sorted(base: int, rs: seq<Run>) {
    0 < base && Canonical(rs) && forall i {:trigger rs[i]} :: 0 <= i < |rs| ==> base < rs[i].addr
  }

  /** The headers in memory link the nodes into one ring in that order. */
  ghost predicate Ring(mem: map<int, Header>, ns: seq<Run>) {
    forall i {:trigger ns[i]} :: 0 <= i < |ns| ==>
      ns[i].addr in mem && mem[ns[i].addr] == Header(AddrAfter(ns, i), ns[i].len)
  }

  lemma NodesAt(base: int, rs: seq<Run>)
    ensures var ns := Nodes(base, rs);
      ns[0] == Run(base, 0) && forall i {:trigger ns[i]} :: 0 < i < |ns| ==> ns[i] == rs[i - 1]
  {
  }

  lemma NodesOrdered(base: int, rs: seq<Run>, i: int, j: int)
    requires Sorted(base, rs) && 0 <= i < j <= |rs|
    ensures var ns := Nodes(base, rs); ns[i].addr + ns[i].len < ns[j].addr
  {
    NodesAt(base, rs);
    if 0 < i {
      assert rs[i - 1].addr + rs[i - 1].len < rs[j - 1].addr;
    } else {
      assert base < rs[j - 1].addr;
    }
  }

  lemma NodesDistinct(base: int, rs: seq<Run>, i: int, j: int)
    requires Sorted(base, rs) && 0 <= i <= |rs| && 0 <= j <= |rs| && i != j
    ensures var ns := Nodes(base, rs); ns[i].addr != ns[j].addr
  {
    NodesLens(base, rs);
    if i < j {
      NodesOrdered(base, rs, i, j);
    } else {
      NodesOrdered(base, rs, j, i);
    }
  }

  lemma NodesLens(base: int, rs: seq<Run>)
    requires Sorted(base, rs)
    ensures var ns := Nodes(base, rs); forall i {:trigger ns[i]} :: 0 <= i < |ns| ==> 0 <= ns[i].len && 0 < ns[i].addr
  {
    NodesAt(base, rs);
  }

  // ---------------------------------------------------------------- relinking

  /** The address that follows the blocks before j: that of block j, or the base. */
  function AddrOrBase(base: int, rs: seq<Run>, j: int): int
    requires 0 <= j <= |rs|
  {
    if j < |rs| then rs[j].addr else base
  }

  /** The nodes of the ring once the blocks from i to j have given way to q, and who links to whom. */
  lemma SplicedAt(base: int, rs: seq<Run>, i: int, j: int, q: Run, k: int)
    requires 0 <= i <= j <= |rs| && 0 <= k <= |Spliced(rs, i, j, [q])|
    ensures var ns, out := Nodes(base, rs), Nodes(base, Spliced(rs, i, j, [q]));
      var o := if k <= i then k else k - i - 1 + j;
      && (k == i + 1 ==> out[k] == q && AddrAfter(out, k) == AddrOrBase(base, rs, j))
      && (k != i + 1 ==>
           0 <= o < |ns| && out[k] == ns[o] && AddrAfter(out, k) == (if k == i then q.addr else AddrAfter(ns, o)))
  {
    NodesAt(base, rs);
    NodesAt(base, Spliced(rs, i, j, [q]));
  }

  /** Setting the header of q, then linking its predecessor to it. */
  lemma SpliceRing(mem: map<int, Header>, base: int, rs: seq<Run>, i: int, j: int, q: Run)
    requires Ring(mem, Nodes(base, rs)) && Sorted(base, rs) && 0 <= i <= j <= |rs|
    requires Sorted(base, Spliced(rs, i, j, [q]))
    ensures var before := Nodes(base, rs)[i].addr;
      var filled := mem[q.addr := Header(AddrOrBase(base, rs, j), q.len)];
      before in filled && before != q.addr
        && Ring(filled[before := filled[before].(ptr := q.addr)], Nodes(base, Spliced(rs, i, j, [q])))
  {
    var ns, out := Nodes(base, rs), Nodes(base, Spliced(rs, i, j, [q]));
    var before := ns[i].addr;
    var filled := mem[q.addr := Header(AddrOrBase(base, rs, j), q.len)];
    hide Sorted, Nodes, Spliced;
    SplicedAt(base, rs, i, j, q, i);
    SplicedAt(base, rs, i, j, q, i + 1);
    NodesDistinct(base, Spliced(rs, i, j, [q]), i, i + 1);
    var m := filled[before := filled[before].(ptr := q.addr)];
    forall k | 0 <= k < |out|
      ensures out[k].addr in m && m[out[k].addr] == Header(AddrAfter(out, k), out[k].len)
    {
      SplicedAt(base, rs, i, j, q, k);
      if k != i {
        NodesDistinct(base, Spliced(rs, i, j, [q]), k, i);
      }
      if k != i + 1 {
        NodesDistinct(base, Spliced(rs, i, j, [q]), k, i + 1);
      }
    }
  }

  lemma CutAt(base: int, rs: seq<Run>, i: int, k: int)
    requires 0 <= i < |rs| && 0 <= k < |rs|
    ensures var ns, out := Nodes(base, rs), Nodes(base, Spliced(rs, i, i + 1, []));
      var o := if k <= i then k else k + 1;
      out[k] == ns[o] && AddrAfter(out, k) == (if k == i then AddrAfter(ns, i + 1) else AddrAfter(ns, o))
        && |out| == |rs|
  {
    NodesAt(base, rs);
    NodesAt(base, Spliced(rs, i, i + 1, []));
  }

  /** Linking the predecessor of block i to its successor. */
  lemma CutRing(mem: map<int, Header>, base: int, rs: seq<Run>, i: int)
    requires Ring(mem, Nodes(base, rs)) && Sorted(base, rs) && 0 <= i < |rs|
    ensures var ns := Nodes(base, rs);
      ns[i].addr in mem && ns[i + 1].addr in mem
      && Ring(mem[ns[i].addr := mem[ns[i].addr].(ptr := mem[ns[i + 1].addr].ptr)],
         Nodes(base, Spliced(rs, i, i + 1, [])))
  {
    var ns, out := Nodes(base, rs), Nodes(base, Spliced(rs, i, i + 1, []));
    hide Sorted, Nodes, Spliced;
    assert ns[i].addr in mem && ns[i + 1].addr in mem;
    var m := mem[ns[i].addr := mem[ns[i].addr].(ptr := mem[ns[i + 1].addr].ptr)];
    CutAt(base, rs, i, 0);
    forall k | 0 <= k < |out|
      ensures out[k].addr in m && m[out[k].addr] == Header(AddrAfter(out, k), out[k].len)
    {
      CutAt(base, rs, i, k);
      var o := if k <= i then k else k + 1;
      if o != i {
        NodesDistinct(base, rs, o, i);
      }
    }
  }

  // ---------------------------------------------------------------- free

  /** Exactly the first t blocks lie below address p. */
  ghost predicate Below(rs: seq<Run>, t: int, p: int) {
    && 0 <= t <= |rs|
    && (forall k {:trigger rs[k]} :: 0 <= k < |rs| ==> if k < t then rs[k].addr < p else p < rs[k].addr)
  }

  /** The block that free makes of a block of size n at p, and which blocks it absorbs. */
  function Joined(rs: seq<Run>, t: int, p: int, n: int): (r: (int, int, Run))
    requires 0 <= t <= |rs|
    ensures 0 <= r.0 <= t <= r.1 <= |rs|
  {
    var up := t < |rs| && p + n == rs[t].addr;
    var down := 0 < t && rs[t - 1].addr + rs[t - 1].len == p;
    var size := n + if up then rs[t].len else 0;
    (if down then t - 1 else t, if up then t + 1 else t,
      if down then Run(rs[t - 1].addr, rs[t - 1].len + size) else Run(p, size))
  }

  lemma {:induction false} InsertedIs(rs: seq<Run>, t: int, p: int, n: int)
    requires Canonical(rs) && 0 < n && Disjoint(rs, p, n) && Below(rs, t, p)
    ensures var (i, j, q) := Joined(rs, t, p, n); Inserted(rs, p, n) == Some(Spliced(rs, i, j, [q]))
    decreases |rs|
  {
    if t == 0 {
      assert rs != [] ==> p + n <= rs[0].addr;
      InsertedFirst(rs, p, n);
    } else {
      assert rs[0].addr + rs[0].len <= p;
      if rs[0].addr + rs[0].len == p {
        assert 1 < |rs| ==> rs[0].addr + rs[0].len < rs[1].addr;
        InsertedSecond(rs, p, n);
      } else {
        TailBelow(rs, t, p, n);
        InsertedIs(rs[1..], t - 1, p, n);
        hide Canonical, Disjoint, Below, Spliced, Joined;
        JoinedTail(rs, t, p, n);
      }
    }
  }

  lemma InsertedFirst(rs: seq<Run>, p: int, n: int)
    requires 0 < n && (rs != [] ==> p + n <= rs[0].addr)
    ensures var (i, j, q) := Joined(rs, 0, p, n); Inserted(rs, p, n) == Some(Spliced(rs, i, j, [q]))
  {
    var (i, j, q) := Joined(rs, 0, p, n);
    assert Spliced(rs, i, j, [q]) == [q] + rs[j..];
    assert rs[0..] == rs;
  }

  lemma InsertedSecond(rs: seq<Run>, p: int, n: int)
    requires 0 < n && rs != [] && 0 < rs[0].len && rs[0].addr + rs[0].len == p
    ensures var (i, j, q) := Joined(rs, 1, p, n); Inserted(rs, p, n) == Some(Spliced(rs, i, j, [q]))
  {
    var (i, j, q) := Joined(rs, 1, p, n);
    assert Spliced(rs, i, j, [q]) == [q] + rs[j..];
  }

  lemma TailBelow(rs: seq<Run>, t: int, p: int, n: int)
    requires Canonical(rs) && Disjoint(rs, p, n) && Below(rs, t, p) && 0 < t
    ensures Canonical(rs[1..]) && Disjoint(rs[1..], p, n) && Below(rs[1..], t - 1, p)
  {
    var tail := rs[1..];
    assert forall k {:trigger tail[k]} :: 0 <= k < |tail| ==> tail[k] == rs[k + 1];
  }

  lemma JoinedTail(rs: seq<Run>, t: int, p: int, n: int)
    requires 0 < t <= |rs| && rs[0].addr + rs[0].len != p
    ensures var (i, j, q) := Joined(rs, t, p, n);
      var (i', j', q') := Joined(rs[1..], t - 1, p, n);
      [rs[0]] + Spliced(rs[1..], i', j', [q']) == Spliced(rs, i, j, [q])
  {
    hide Spliced;
    var (i, j, q) := Joined(rs, t, p, n);
    var (i', j', q') := Joined(rs[1..], t - 1, p, n);
    assert i' == i - 1 && j' == j - 1 && q' == q;
    SplicedTail(rs, i, j, q);
  }

  lemma SplicedTail(rs: seq<Run>, i: int, j: int, q: Run)
    requires 0 < i <= j <= |rs|
    ensures [rs[0]] + Spliced(rs[1..], i - 1, j - 1, [q]) == Spliced(rs, i, j, [q])
  {
    assert rs[1..][..i - 1] == rs[1..i] && rs[1..][j - 1..] == rs[j..] && [rs[0]] + rs[1..i] == rs[..i];
  }

  /** There is such a place for every address outside the free blocks. */
  lemma {:induction false} BelowExists(rs: seq<Run>, p: int, n: int) returns (t: int)
    requires Canonical(rs) && 0 < n && Disjoint(rs, p, n)
    ensures Below(rs, t, p)
    decreases |rs|
  {
    if rs == [] || p < rs[0].addr {
      t := 0;
    } else {
      var tail := rs[1..];
      assert forall k {:trigger tail[k]} :: 0 <= k < |tail| ==> tail[k] == rs[k + 1];
      t := BelowExists(tail, p, n);
      assert rs[0].addr < p;
      assert forall k {:trigger rs[k]} :: 0 < k < |rs| ==> rs[k] == tail[k - 1];
      t := t + 1;
    }
  }

  lemma AboveBase(base: int, rs: seq<Run>, i: int, j: int, q: Run)
    requires 0 <= i <= j <= |rs| && base < q.addr
    requires forall k {:trigger rs[k]} :: 0 <= k < |rs| ==> base < rs[k].addr
    ensures var out := Spliced(rs, i, j, [q]); forall k {:trigger out[k]} :: 0 <= k < |out| ==> base < out[k].addr
  {
  }

  /** Inserting keeps the blocks above the base. */
  lemma JoinedSorted(base: int, rs: seq<Run>, t: int, p: int, n: int)
    requires Sorted(base, rs) && 0 < n && Disjoint(rs, p, n) && Below(rs, t, p) && base < p
    ensures var (i, j, q) := Joined(rs, t, p, n); Sorted(base, Spliced(rs, i, j, [q]))
  {
    InsertedIs(rs, t, p, n);
    InsertedKeeps(rs, p, n);
    var (i, j, q) := Joined(rs, t, p, n);
    hide Inserted, Canonical, Spliced;
    AboveBase(base, rs, i, j, q);
  }

  /** What the search of free sees at node i of the ring: it stops exactly at the predecessor of bp. */
  lemma StopsAt(mem: map<int, Header>, base: int, rs: seq<Run>, t: int, i: int, bp: int)
    requires Ring(mem, Nodes(base, rs)) && Sorted(base, rs) && Below(rs, t, bp) && base < bp && 0 <= i <= |rs|
    ensures var p := Nodes(base, rs)[i].addr;
      && p in mem && p > 0
      && mem[p].ptr == AddrAfter(Nodes(base, rs), i)
      && (i != t ==> !(p < bp < mem[p].ptr) && !(mem[p].ptr <= p && (p < bp || bp < mem[p].ptr)))
      && (i == t ==> (p < bp < mem[p].ptr) || (mem[p].ptr <= p && (p < bp || bp < mem[p].ptr)))
  {
    NodesAt(base, rs);
    var ns := Nodes(base, rs);
    assert ns[i].addr in mem;
    NodesLens(base, rs);
    if 0 < i {
      assert ns[i] == rs[i - 1];
      NodesOrdered(base, rs, 0, i);
    }
    if i < |rs| {
      NodesOrdered(base, rs, i, i + 1);
      assert ns[i + 1] == rs[i];
    }
  }

  /** The first two assignments of free: the block takes in its upper neighbour, or links to it. */
  function JoinedUp(mem: map<int, Header>, p: int, bp: int): map<int, Header>
    requires p in mem && bp in mem && mem[p].ptr in mem
  {
    var next := mem[p].ptr;
    if bp + mem[bp].size == next then mem[bp := Header(mem[next].ptr, mem[bp].size + mem[next].size)]
    else mem[bp := mem[bp].(ptr := next)]
  }

  /** The last two: its lower neighbour takes the block in, or links to it. */
  function JoinedDown(mem: map<int, Header>, p: int, bp: int): map<int, Header>
    requires p in mem && bp in mem
  {
    if p + mem[p].size == bp then mem[p := Header(mem[bp].ptr, mem[p].size + mem[bp].size)]
    else mem[p := mem[p].(ptr := bp)]
  }

  /** A header outside the ring may hold anything. */
  lemma RingOther(mem: map<int, Header>, ns: seq<Run>, a: int, h: Header)
    requires Ring(mem, ns) && forall i {:trigger ns[i]} :: 0 <= i < |ns| ==> ns[i].addr != a
    ensures Ring(mem[a := h], ns)
  {
  }

  /** The node before the place of bp and the one after it, as free finds them. */
  lemma Neighbours(mem: map<int, Header>, base: int, rs: seq<Run>, t: int, bp: int, n: int)
    requires Ring(mem, Nodes(base, rs)) && Sorted(base, rs) && Below(rs, t, bp) && base < bp && 0 < n
      && Disjoint(rs, bp, n)
    ensures var p := Nodes(base, rs)[t].addr;
      var (i, j, q) := Joined(rs, t, bp, n);
      && p in mem && p < bp && mem[p].ptr in mem && mem[p].ptr != bp && p != bp
      && mem[p].ptr == AddrOrBase(base, rs, t)
      && (bp + n == mem[p].ptr <==> j == t + 1)
      && (j == t + 1 ==> mem[mem[p].ptr] == Header(AddrOrBase(base, rs, j), rs[t].len))
      && (p + mem[p].size == bp <==> i == t - 1)
      && (i == t - 1 ==> Run(p, mem[p].size) == rs[t - 1])
      && q.addr <= bp < q.addr + q.len
  {
    NodesAt(base, rs);
    var ns := Nodes(base, rs);
    assert ns[t].addr in mem;
    if t < |rs| {
      assert ns[t + 1] == rs[t] && 0 < rs[t].len;
    } else {
      assert ns[0].addr in mem;
    }
    if 0 < t {
      assert ns[t] == rs[t - 1];
    }
  }

  /** An address strictly inside a block is no node of the ring. */
  lemma InsideBlock(base: int, rs: seq<Run>, t: int, a: int)
    requires Sorted(base, rs) && 0 < t <= |rs|
    requires var r := Nodes(base, rs)[t]; r.addr < a < r.addr + r.len
    ensures var ns := Nodes(base, rs); forall i {:trigger ns[i]} :: 0 <= i < |ns| ==> ns[i].addr != a
  {
    var ns := Nodes(base, rs);
    NodesLens(base, rs);
    forall i | 0 <= i < |ns|
      ensures ns[i].addr != a
    {
      if i < t {
        NodesOrdered(base, rs, i, t);
      } else if t < i {
        NodesOrdered(base, rs, t, i);
      }
    }
  }

  /** Enlarging or shrinking block t in place, with the link it should have. */
  lemma ResizeRing(mem: map<int, Header>, base: int, rs: seq<Run>, t: int, j: int, q: Run)
    requires Ring(mem, Nodes(base, rs)) && Sorted(base, rs) && 0 < t <= j <= |rs| && q.addr == rs[t - 1].addr
    requires Sorted(base, Spliced(rs, t - 1, j, [q]))
    ensures Ring(mem[q.addr := Header(AddrOrBase(base, rs, j), q.len)], Nodes(base, Spliced(rs, t - 1, j, [q])))
  {
    SpliceRing(mem, base, rs, t - 1, j, q);
    var ns := Nodes(base, rs);
    var before := ns[t - 1].addr;
    var filled := mem[q.addr := Header(AddrOrBase(base, rs, j), q.len)];
    assert mem[before].ptr == q.addr by {
      assert ns[t] == rs[t - 1];
    }
    hide Ring, Nodes, Sorted, Spliced;
    assert filled[before := filled[before].(ptr := q.addr)] == filled;
  }

  lemma SplicedLen(rs: seq<Run>, i: int, j: int, q: Run)
    requires 0 <= i <= j <= |rs|
    ensures |Spliced(rs, i, j, [q])| == |rs| - (j - i) + 1
  {
  }

  /** When the lower neighbour takes the block in, the block's own header drops out of the ring. */
  lemma FreeRelinksDown(mem: map<int, Header>, base: int, rs: seq<Run>, t: int, bp: int, n: int)
    requires Ring(mem, Nodes(base, rs)) && Sorted(base, rs) && Below(rs, t, bp) && base < bp && 0 < n
      && Disjoint(rs, bp, n)
    requires bp in mem && mem[bp].size == n && Joined(rs, t, bp, n).0 == t - 1
    ensures var p := Nodes(base, rs)[t].addr;
      var (i, j, q) := Joined(rs, t, bp, n);
      && p in mem && mem[p].ptr in mem
      && Ring(JoinedDown(JoinedUp(mem, p, bp), p, bp), Nodes(base, Spliced(rs, i, j, [q])))
  {
    hide Ring, Nodes, Sorted, Spliced, Below, Disjoint;
    Neighbours(mem, base, rs, t, bp, n);
    JoinedSorted(base, rs, t, bp, n);
    var p := Nodes(base, rs)[t].addr;
    var (i, j, q) := Joined(rs, t, bp, n);
    var out := Spliced(rs, i, j, [q]);
    SplicedLen(rs, i, j, q);
    SplicedAt(base, rs, i, j, q, t);
    ResizeRing(mem, base, rs, t, j, q);
    InsideBlock(base, out, t, bp);
    var filled := mem[q.addr := Header(AddrOrBase(base, rs, j), q.len)];
    var upped := JoinedUp(mem, p, bp);
    RingOther(filled, Nodes(base, out), bp, upped[bp]);
    assert JoinedDown(upped, p, bp) == filled[bp := upped[bp]];
  }

  /** The four assignments of free relink the ring around the joined block. */
  lemma FreeRelinks(mem: map<int, Header>, base: int, rs: seq<Run>, t: int, bp: int, n: int)
    requires Ring(mem, Nodes(base, rs)) && Sorted(base, rs) && Below(rs, t, bp) && base < bp && 0 < n
      && Disjoint(rs, bp, n)
    requires bp in mem && mem[bp].size == n
    ensures var p := Nodes(base, rs)[t].addr;
      var (i, j, q) := Joined(rs, t, bp, n);
      && p in mem && mem[p].ptr in mem
      && Ring(JoinedDown(JoinedUp(mem, p, bp), p, bp), Nodes(base, Spliced(rs, i, j, [q])))
      && Nodes(base, Spliced(rs, i, j, [q]))[t].addr == p
  {
    hide Ring, Nodes, Sorted, Spliced, Below, Disjoint;
    Neighbours(mem, base, rs, t, bp, n);
    var p := Nodes(base, rs)[t].addr;
    var (i, j, q) := Joined(rs, t, bp, n);
    SplicedLen(rs, i, j, q);
    SplicedAt(base, rs, i, j, q, t);
    if i == t {
      JoinedSorted(base, rs, t, bp, n);
      SpliceRing(mem, base, rs, i, j, q);
      var filled := mem[q.addr := Header(AddrOrBase(base, rs, j), q.len)];
      assert JoinedDown(JoinedUp(mem, p, bp), p, bp) == filled[p := filled[p].(ptr := q.addr)];
    } else {
      FreeRelinksDown(mem, base, rs, t, bp, n);
    }
  }

  // ---------------------------------------------------------------- malloc

  /** The units malloc asks for, computed in 32-bit unsigned arithmetic. */
  function Units(nbytes: int): (u: int)
    requires 0 <= nbytes < UINT
  {
    (nbytes + HSIZE - 1) % UINT / HSIZE + 1
  }

  /** The units hold the payload unless the sum wraps; their size in bytes fits 32 bits unless they are 2^29. */
  lemma UnitsExactly(nbytes: int)
    requires 0 <= nbytes < UINT
    ensures 1 <= Units(nbytes) <= UINT / HSIZE
    ensures nbytes <= (Units(nbytes) - 1) * HSIZE <==> nbytes < UINT - 7
    ensures nbytes < UINT - 7 ==> (Units(nbytes) - 1) * HSIZE < nbytes + HSIZE
    ensures Units(nbytes) < UINT / HSIZE <==> !(UINT - 15 <= nbytes < UINT - 7)
  {
  }

  predicate Fits(rs: seq<Run>, n: int) {
    exists k {:trigger rs[k]} :: 0 <= k < |rs| && n <= rs[k].len
  }

  /** What is left of the free blocks when n units come off the end of block i. */
  ghost function Carved(rs: seq<Run>, i: int, n: int): (out: seq<Run>)
    requires 0 <= i < |rs|
  {
    Spliced(rs, i, i + 1, if rs[i].len == n then [] else [Run(rs[i].addr, rs[i].len - n)])
  }

  lemma {:induction false} CarvedOk(rs: seq<Run>, i: int, n: int)
    requires Canonical(rs) && 0 <= i < |rs| && 0 < n <= rs[i].len
    ensures TakenOk(rs, n, rs[i].addr + rs[i].len - n, Carved(rs, i, n))
    decreases i
  {
    hide TakenOk, Canonical, Carved, In;
    if i == 0 {
      CarvedFirst(rs, n);
      if rs[0].len == n {
        TakenWhole(rs);
      } else {
        TakenPart(rs, n);
      }
    } else {
      CanonicalTail(rs);
      CarvedOk(rs[1..], i - 1, n);
      TakenRest(rs, n, rs[i].addr + rs[i].len - n, Carved(rs[1..], i - 1, n));
      CarvedTail(rs, i, n);
    }
  }

  lemma CarvedFirst(rs: seq<Run>, n: int)
    requires rs != []
    ensures Carved(rs, 0, n) == (if rs[0].len == n then rs[1..] else [Run(rs[0].addr, rs[0].len - n)] + rs[1..])
  {
  }

  lemma CarvedTail(rs: seq<Run>, i: int, n: int)
    requires 0 < i < |rs|
    ensures Carved(rs, i, n) == [rs[0]] + Carved(rs[1..], i - 1, n)
  {
    assert rs[1..][..i - 1] == rs[1..i] && rs[1..][i..] == rs[i + 1..] && [rs[0]] + rs[1..i] == rs[..i];
  }

  lemma CarvedSorted(base: int, rs: seq<Run>, i: int, n: int)
    requires Sorted(base, rs) && 0 <= i < |rs| && 0 < n <= rs[i].len
    ensures Sorted(base, Carved(rs, i, n))
  {
    CarvedOk(rs, i, n);
    hide Canonical;
  }

  /** Unlinking a block of just the right size. */
  lemma TakeWhole(mem: map<int, Header>, base: int, rs: seq<Run>, i: int, n: int)
    requires Ring(mem, Nodes(base, rs)) && Sorted(base, rs) && 0 <= i < |rs| && 0 < n == rs[i].len
    ensures var ns := Nodes(base, rs);
      && ns[i].addr in mem && ns[i + 1].addr in mem
      && Ring(mem[ns[i].addr := mem[ns[i].addr].(ptr := mem[ns[i + 1].addr].ptr)], Nodes(base, Carved(rs, i, n)))
      && Nodes(base, Carved(rs, i, n))[i] == ns[i]
  {
    CutRing(mem, base, rs, i);
    CutAt(base, rs, i, i);
  }

  /** Cutting the tail off a larger one. */
  lemma TakePart(mem: map<int, Header>, base: int, rs: seq<Run>, i: int, n: int, h: Header)
    requires Ring(mem, Nodes(base, rs)) && Sorted(base, rs) && 0 <= i < |rs| && 0 < n < rs[i].len
    ensures var p := rs[i].addr;
      && p in mem
      && Ring(mem[p := mem[p].(size := mem[p].size - n)][p + (rs[i].len - n) := h], Nodes(base, Carved(rs, i, n)))
      && Nodes(base, Carved(rs, i, n))[i] == Nodes(base, rs)[i]
  {
    var p, left := rs[i].addr, rs[i].len - n;
    var q := Run(p, left);
    CarvedSorted(base, rs, i, n);
    hide Sorted, Spliced, Canonical;
    SplicedLen(rs, i, i + 1, q);
    SplicedAt(base, rs, i, i + 1, q, i);
    SplicedAt(base, rs, i, i + 1, q, i + 1);
    ResizeRing(mem, base, rs, i + 1, i + 1, q);
    HeaderOf(mem, base, rs, i);
    var shrunk := mem[p := mem[p].(size := mem[p].size - n)];
    assert shrunk == mem[p := Header(AddrOrBase(base, rs, i + 1), left)];
    OutsideTail(base, Carved(rs, i, n), i + 1, p + left);
    hide Nodes, Ring;
    RingOther(shrunk, Nodes(base, Carved(rs, i, n)), p + left, h);
  }

  lemma HeaderOf(mem: map<int, Header>, base: int, rs: seq<Run>, i: int)
    requires Ring(mem, Nodes(base, rs)) && 0 <= i < |rs|
    ensures rs[i].addr in mem && mem[rs[i].addr] == Header(AddrOrBase(base, rs, i + 1), rs[i].len)
  {
    assert Nodes(base, rs)[i + 1] == rs[i];
  }

  /** The first unit past a block is no node: blocks have gaps between them. */
  lemma OutsideTail(base: int, rs: seq<Run>, t: int, a: int)
    requires Sorted(base, rs) && 0 < t <= |rs|
    requires var r := Nodes(base, rs)[t]; a == r.addr + r.len
    ensures var ns := Nodes(base, rs); forall i {:trigger ns[i]} :: 0 <= i < |ns| ==> ns[i].addr != a
  {
    var ns := Nodes(base, rs);
    NodesLens(base, rs);
    NodesAt(base, rs);
    forall i | 0 <= i < |ns|
      ensures ns[i].addr != a
    {
      if i < t {
        NodesOrdered(base, rs, i, t);
      } else if t < i {
        NodesOrdered(base, rs, t, i);
      }
    }
  }

  /** The block freed into the list ends up in one at least as large. */
  lemma {:induction false} InsertedFits(rs: seq<Run>, p: int, n: int)
    requires Inserted(rs, p, n).Some? && 0 < n && forall i {:trigger rs[i]} :: 0 <= i < |rs| ==> 0 < rs[i].len
    ensures Fits(Inserted(rs, p, n).value, n)
    decreases |rs|
  {
    var out := Inserted(rs, p, n).value;
    if rs == [] || p + n <= rs[0].addr || rs[0].addr + rs[0].len == p {
      assert n <= out[0].len;
    } else {
      InsertedFits(rs[1..], p, n);
      var rest := Inserted(rs[1..], p, n).value;
      var k :| 0 <= k < |rest| && n <= rest[k].len;
      assert out[k + 1] == rest[k];
    }
  }

  // ---------------------------------------------------------------- new memory

  predicate Within(a: int, n: int, x: int) {
    a <= x < a + n
  }

  ghost function Span(a: int, n: int): iset<int> {
    iset x | Within(a, n, x)
  }

  /** Memory the process did not have before is one more live block until it is freed into the list. */
  lemma AdoptKeeps(h: Heap, owned: iset<int>, a: int, n: int)
    requires Partitioned(h, owned) && 0 < n && Span(a, n) !! owned
    ensures a !in h.live && Partitioned(Heap(h.free, h.live[a := n]), owned + Span(a, n))
  {
    hide Canonical, In;
    forall b | b in h.live
      ensures a + n <= b || b + h.live[b] <= a
    {
      var x := if a <= b then b else a;
      assert b <= x < b + h.live[b] ==> InLive(h.live, x);
      assert a <= x < a + n ==> Within(a, n, x);
    }
    assert a !in h.live;
    assert forall x {:trigger In(h.free, x)} :: a <= x < a + n ==> Within(a, n, x) && !In(h.free, x);
    ApartDisjoint(h.free, a, n);
    forall x
      ensures InLive(h.live[a := n], x) <==> InLive(h.live, x) || x in Span(a, n)
    {
      LiveAdd(h.live, a, n, x);
    }
  }
}
