/** malloc and free over one process's memory (umalloc.c); addresses count units of one header. */
module UserHeaps {
  import opened Options
  import opened Words
  import opened KallocSpec
  import opened Umalloc

  /** Every block handed out has its size in its header. */
  ghost predicate Headed(mem: map<int, Header>, live: map<int, int>) {
    forall a {:trigger live[a]} :: a in live ==> a in mem && mem[a].size == live[a]
  }

  lemma HeadedAt(mem: map<int, Header>, live: map<int, int>, a: int)
    requires Headed(mem, live) && a in live
    ensures a in mem && mem[a].size == live[a]
  {
  }

  lemma HeadedLess(mem: map<int, Header>, after: map<int, Header>, live: map<int, int>, bp: int, p: int)
    requires Headed(mem, live) && p !in live
    requires forall a {:trigger a in after} :: a in mem && a != bp && a != p ==> a in after && after[a] == mem[a]
    ensures Headed(after, live - {bp})
  {
  }

  /** Freeing a live block keeps the partition. */
  lemma FreedHeap(h: Heap, owned: iset<int>, a: int)
    requires Partitioned(h, owned) && a in h.live
    ensures 0 < h.live[a] && Disjoint(h.free, a, h.live[a]) && Inserted(h.free, a, h.live[a]).Some?
    ensures Partitioned(Heap(Inserted(h.free, a, h.live[a]).value, h.live - {a}), owned)
  {
    FreeKeeps(h, owned, a);
  }

  /** Live blocks are not nodes of the ring. */
  lemma LiveApart(base: int, h: Heap, owned: iset<int>, a: int, i: int)
    requires Partitioned(h, owned) && a in h.live && 0 <= i <= |h.free|
      && (forall x {:trigger x in owned} :: x in owned ==> base < x)
    ensures base < a && Nodes(base, h.free)[i].addr != a
  {
    assert InLive(h.live, a);
    assert a in owned;
    NodesAt(base, h.free);
    if 0 < i {
      assert h.free[i - 1] == Nodes(base, h.free)[i];
      assert 0 < h.free[i - 1].len;
    }
  }

  lemma NotLive(base: int, h: Heap, owned: iset<int>, i: int)
    requires Partitioned(h, owned) && 0 <= i <= |h.free| && (forall x {:trigger x in owned} :: x in owned ==> base < x)
    ensures Nodes(base, h.free)[i].addr !in h.live
  {
    hide Partitioned;
    if Nodes(base, h.free)[i].addr in h.live {
      LiveApart(base, h, owned, Nodes(base, h.free)[i].addr, i);
    }
  }

  /** How many steps along a ring of n nodes lead from node f to node k; a whole turn from f to itself. */
  function Steps(f: int, k: int, n: int): int {
    if f < k then k - f else k - f + n
  }

  function Next(k: int, n: int): int {
    if k + 1 < n then k + 1 else 0
  }

  /** The nodes within v steps of f are all too small. */
  ghost predicate Searched(ns: seq<Run>, f: int, v: int, n: int) {
    forall j {:trigger ns[j]} :: 0 <= j < |ns| && Steps(f, j, |ns|) <= v ==> ns[j].len < n
  }

  lemma SearchedMore(ns: seq<Run>, f: int, k: int, v: int, n: int)
    requires Searched(ns, f, v, n) && 0 <= f < |ns| && 0 <= k < |ns| && Steps(f, k, |ns|) == v + 1 && ns[k].len < n
    ensures Searched(ns, f, v + 1, n)
  {
  }

  lemma SearchedAll(base: int, rs: seq<Run>, f: int, n: int)
    requires Searched(Nodes(base, rs), f, |rs| + 1, n) && 0 <= f <= |rs|
    ensures !Fits(rs, n)
  {
    NodesAt(base, rs);
    forall k | 0 <= k < |rs|
      ensures rs[k].len < n
    {
      assert Nodes(base, rs)[k + 1] == rs[k];
    }
  }

  class UserHeap {
    const base: int
    var mem: map<int, Header>
    var freep: int
    /** The free blocks, the node freep points to, the blocks handed out, and all memory obtained from sbrk. */
    ghost var rs: seq<Run>
    ghost var at: int
    ghost var live: map<int, int>
    ghost var owned: iset<int>

    ghost predicate Linked()
      reads this
    {
      && Sorted(base, rs)
      && Ring(mem, Nodes(base, rs))
      && 0 <= at <= |rs| && freep == Nodes(base, rs)[at].addr
    }

    ghost predicate Accounted()
      reads this
    {
      && Partitioned(Heap(rs, live), owned)
      && Headed(mem, live)
      && (forall x {:trigger x in owned} :: x in owned ==> base < x)
    }

    ghost predicate Valid()
      reads this
    {
      0 < base && Accounted() && (if freep == 0 then rs == [] && live == map[] else Linked())
    }

    constructor (base: int)
      requires 0 < base
      ensures Valid() && freep == 0 && rs == [] && live == map[] && owned == iset{}
    {
      this.base, freep, mem := base, 0, map[];
      rs, at, live, owned := [], 0, map[], iset{};
    }

    /** The four assignments at the end of free. */
    method Join(p: int, bp: int, ghost t: int)
      requires Linked() && bp in mem && 0 < mem[bp].size && Disjoint(rs, bp, mem[bp].size) && base < bp
      requires Below(rs, t, bp) && p == Nodes(base, rs)[t].addr
      modifies this
      ensures Linked() && freep == p && live == old(live) && owned == old(owned)
      ensures Inserted(old(rs), bp, old(mem[bp].size)) == Some(rs)
      ensures forall a {:trigger a in mem} :: a in old(mem) && a != bp && a != p ==> a in mem && mem[a] == old(mem[a])
    {
      hide Ring, Nodes, Sorted, Below, Disjoint, Spliced, Canonical;
      ghost var n := mem[bp].size;
      JoinFacts(mem, base, rs, t, bp, n);
      var next := mem[p].ptr;
      if bp + mem[bp].size == next {
        mem := mem[bp := Header(mem[next].ptr, mem[bp].size + mem[next].size)];
      } else {
        mem := mem[bp := mem[bp].(ptr := next)];
      }
      if p + mem[p].size == bp {
        mem := mem[p := Header(mem[bp].ptr, mem[p].size + mem[bp].size)];
      } else {
        mem := mem[p := mem[p].(ptr := bp)];
      }
      freep := p;
      ghost var j := Joined(rs, t, bp, n);
      rs, at := Spliced(rs, j.0, j.1, [j.2]), t;
    }

    /** free of a block that malloc handed out. */
    method Free(ap: int)
      requires Valid() && ap - 1 in live
      modifies this
      ensures Valid() && freep != 0
      ensures live == old(live) - {ap - 1} && owned == old(owned)
      ensures Inserted(old(rs), ap - 1, old(live[ap - 1])) == Some(rs)
    {
      hide Ring, Nodes, Sorted, Below, Canonical, Inserted, Headed, Partitioned, Disjoint;
      var bp := ap - 1;
      ghost var n := live[bp];
      HeadedAt(mem, live, bp);
      FreedHeap(Heap(rs, live), owned, bp);
      LiveApart(base, Heap(rs, live), owned, bp, 0);
      SortedCanonical(base, rs);
      ghost var t := BelowExists(rs, bp, n);
      ghost var i := at;
      var p := freep;
      StopsAt(mem, base, rs, t, i, bp);
      BelowBound(rs, t, bp);
      while !(bp > p && bp < mem[p].ptr)
        invariant Linked() && mem == old(mem) && freep == old(freep) && rs == old(rs) && live == old(live)
          && owned == old(owned)
        invariant 0 <= i <= |rs| && p == Nodes(base, rs)[i].addr && p in mem
        decreases if i <= t then t - i else t - i + |rs| + 1
      {
        StopsAt(mem, base, rs, t, i, bp);
        if p >= mem[p].ptr && (bp > p || bp < mem[p].ptr) {
          break;
        }
        p := mem[p].ptr;
        i := Next(i, |rs| + 1);
        StopsAt(mem, base, rs, t, i, bp);
      }
      StopsAt(mem, base, rs, t, i, bp);
      NotLive(base, Heap(rs, live), owned, i);
      Join(p, bp, t);
      HeadedLess(old(mem), mem, live, bp, p);
      live := live - {bp};
    }

    /** morecore: at least PAGE units from sbrk, freed into the list; got is what sbrk returned, 0 for its failure. */
    method Morecore(nu: int, got: int) returns (p: int)
      requires Valid() && freep != 0 && 0 < nu
      requires got != 0 ==> Larger(nu) * HSIZE < UINT && base < got && Span(got, Larger(nu)) !! owned
      modifies this
      ensures Valid() && freep != 0 && live == old(live)
      ensures got == 0 ==>
        p == 0 && rs == old(rs) && owned == old(owned) && mem == old(mem) && freep == old(freep) && at == old(at)
      ensures got != 0 ==> p == freep && owned == old(owned) + Span(got, Larger(nu))
      ensures got != 0 ==> Inserted(old(rs), got, Larger(nu)) == Some(rs)
    {
      hide Ring, Nodes, Sorted, Canonical, Inserted, Partitioned;
      var units := if nu < PAGE then PAGE else nu;
      if got == 0 {
        return 0;
      }
      AdoptKeeps(Heap(rs, live), owned, got, units);
      NotLinked(base, Heap(rs, live), owned, got, units);
      mem := Sized(mem, got, units);
      RingSized(old(mem), Nodes(base, rs), got, units);
      live, owned := live[got := units], owned + Span(got, units);
      Free(got + 1);
      assert live == old(live);
      return freep;
    }

    /** The block at p, node k + 1 of the ring, is large enough: take n units off its end. */
    method Take(prevp: int, p: int, n: int, ghost k: int) returns (r: int)
      requires Valid() && freep != 0 && 0 < n && 0 <= k < |rs| && n <= rs[k].len
      requires prevp == Nodes(base, rs)[k].addr && p == rs[k].addr
      modifies this
      ensures Valid() && freep == prevp && r != 0
      ensures owned == old(owned) && r - 1 !in old(live) && live == old(live)[r - 1 := n]
      ensures rs == Carved(old(rs), k, n) && r - 1 == old(rs[k].addr + rs[k].len) - n
    {
      hide Ring, Nodes, Sorted, Canonical, Partitioned, Carved, TakenOk, Disjoint;
      SortedCanonical(base, rs);
      NodesLens(base, rs);
      HeaderOf(mem, base, rs, k);
      CarvedOk(rs, k, n);
      CarvedSorted(base, rs, k, n);
      var a := p + mem[p].size - n;
      HandOutKeeps(Heap(rs, live), owned, n, a, Carved(rs, k, n));
      TakeApart(base, Heap(rs, live), owned, n, a, k);
      CarvedLen(rs, k, n);
      if mem[p].size == n {
        NodesAt(base, rs);
        TakeWhole(mem, base, rs, k, n);
        mem := mem[prevp := mem[prevp].(ptr := mem[p].ptr)];
        assert a == p;
      } else {
        TakePart(mem, base, rs, k, n, Header(if a in mem && a != p then mem[a].ptr else 0, n));
        mem := mem[p := mem[p].(size := mem[p].size - n)];
        mem := Sized(mem, a, n);
      }
      freep := prevp;
      rs, at, live := Carved(rs, k, n), k, live[a := n];
      return a + 1;
    }

    /** The first call of malloc makes the ring of the base alone. */
    method Start()
      requires Valid()
      modifies this
      ensures Valid() && freep != 0 && rs == old(rs) && live == old(live) && owned == old(owned)
    {
      if freep == 0 {
        FirstRing(mem, base);
        mem, freep := mem[base := Header(base, 0)], base;
        at := 0;
      }
    }

    /** malloc: 0 exactly when no free block is large enough and sbrk fails; got is what sbrk would return. */
    method Malloc(nbytes: int, got: int) returns (r: int)
      requires Valid() && 0 <= nbytes < UINT
      requires got != 0 ==> Units(nbytes) < UINT / HSIZE && base < got && Span(got, Larger(Units(nbytes))) !! owned
      modifies this
      ensures Valid()
      ensures r == 0 <==> !Fits(old(rs), Units(nbytes)) && got == 0
      ensures r == 0 ==> rs == old(rs) && live == old(live)
      ensures r != 0 ==> r - 1 !in old(live) && live == old(live)[r - 1 := Units(nbytes)]
      ensures owned == if Fits(old(rs), Units(nbytes)) || got == 0 then old(owned)
        else old(owned) + Span(got, Larger(Units(nbytes)))
    {
      hide Ring, Nodes, Sorted, Canonical, Fits, Searched, Inserted, UserHeap.Accounted, Units, Larger, Span, Carved;
      UnitsBound(nbytes);
      var n := (nbytes + HSIZE - 1) % UINT / HSIZE + 1;
      Start();
      var prevp := freep;
      ghost var k, v, grown := at, 0, false;
      NodeAt(mem, base, rs, k);
      SearchedNone(Nodes(base, rs), at, n);
      var p := mem[prevp].ptr;
      while true
        invariant Valid() && freep != 0 && live == old(live)
        invariant 0 <= k <= |rs| && prevp == Nodes(base, rs)[k].addr
        invariant p == Nodes(base, rs)[Next(k, |rs| + 1)].addr
        invariant 0 <= v <= |rs| && Searched(Nodes(base, rs), at, v, n)
          && Steps(at, Next(k, |rs| + 1), |rs| + 1) == v + 1
        invariant !grown ==> rs == old(rs) && owned == old(owned)
        invariant grown ==> got != 0 && Fits(rs, n) && !Fits(old(rs), n) && owned == old(owned) + Span(got, Larger(n))
        decreases !grown, |rs| - v
      {
        ghost var i := Next(k, |rs| + 1);
        NodeAt(mem, base, rs, i);
        if mem[p].size >= n {
          FoundAt(base, rs, i, n);
          r := Take(prevp, p, n, k);
          return;
        }
        SearchedMore(Nodes(base, rs), at, i, v, n);
        SameNode(base, rs, i, at);
        if p == freep {
          SearchedAll(base, rs, at, n);
          p := Morecore(n, got);
          if p == 0 {
            return 0;
          }
          SortedCanonical(base, old(rs));
          InsertedFitsMore(old(rs), got, Larger(n), n);
          grown, k, v := true, at, 0;
          SearchedNone(Nodes(base, rs), at, n);
        } else {
          k, v := i, v + 1;
        }
        NodeAt(mem, base, rs, k);
        prevp, p := p, mem[p].ptr;
      }
    }
  }

  function Larger(nu: int): int {
    if nu < PAGE then PAGE else nu
  }

  /** How many units sbrk adds when morecore asks for nu of them: the size in bytes is computed in 32 bits. */
  function Granted(nu: int): int {
    Larger(nu) * HSIZE % UINT / HSIZE
  }

  /**
   morecore when memory ends at end: what it frees is what sbrk has added exactly if the units are not 2^29.
   Otherwise the free list holds units the process does not have.
   */
  lemma MorecoreExactly(h: Heap, owned: iset<int>, end: int, nu: int)
    requires Partitioned(h, owned) && 0 < nu <= UINT / HSIZE && forall x {:trigger x in owned} :: x in owned ==> x < end
    ensures Inserted(h.free, end, Larger(nu)).Some?
    ensures Partitioned(Heap(Inserted(h.free, end, Larger(nu)).value, h.live), owned + Span(end, Granted(nu))) <==>
      nu < UINT / HSIZE
  {
    hide Inserted, Canonical, Partitioned;
    var units := Larger(nu);
    AdoptKeeps(h, owned, end, units);
    var adopted := Heap(h.free, h.live[end := units]);
    FreeKeeps(adopted, owned + Span(end, units), end);
    assert adopted.live - {end} == h.live;
    if nu < UINT / HSIZE {
      assert Granted(nu) == units;
    } else {
      assert Granted(nu) == 0;
      NotOwned(Inserted(h.free, end, units).value, h.live, owned, end, units);
    }
  }

  /** A partition of more memory is none of less. */
  lemma NotOwned(rs: seq<Run>, live: map<int, int>, owned: iset<int>, end: int, units: int)
    requires Partitioned(Heap(rs, live), owned + Span(end, units)) && 0 < units && end !in owned
    ensures !Partitioned(Heap(rs, live), owned + Span(end, 0))
  {
    assert Within(end, units, end) && !Within(end, 0, end);
    assert In(rs, end) || InLive(live, end);
  }

  lemma UnitsBound(nbytes: int)
    requires 0 <= nbytes < UINT
    ensures Units(nbytes) == (nbytes + HSIZE - 1) % UINT / HSIZE + 1
    ensures 0 < Units(nbytes) <= Larger(Units(nbytes))
    ensures Units(nbytes) < UINT / HSIZE ==> Larger(Units(nbytes)) * HSIZE < UINT
  {
    UnitsExactly(nbytes);
  }

  /** The size of a header is set, its link left as it is. */
  function Sized(mem: map<int, Header>, a: int, n: int): map<int, Header> {
    mem[a := Header(if a in mem then mem[a].ptr else 0, n)]
  }

  lemma SortedCanonical(base: int, rs: seq<Run>)
    requires Sorted(base, rs)
    ensures Canonical(rs) && 0 < base
  {
  }

  lemma BelowBound(rs: seq<Run>, t: int, p: int)
    requires Below(rs, t, p)
    ensures 0 <= t <= |rs|
  {
  }

  /** What Join needs, in one place. */
  lemma JoinFacts(mem: map<int, Header>, base: int, rs: seq<Run>, t: int, bp: int, n: int)
    requires Ring(mem, Nodes(base, rs)) && Sorted(base, rs) && Below(rs, t, bp) && base < bp && 0 < n
      && Disjoint(rs, bp, n)
    requires bp in mem && mem[bp].size == n
    ensures var p := Nodes(base, rs)[t].addr;
      var (i, j, q) := Joined(rs, t, bp, n);
      var out := Spliced(rs, i, j, [q]);
      && p in mem && mem[p].ptr in mem && p != bp && mem[p].ptr != bp
      && Ring(JoinedDown(JoinedUp(mem, p, bp), p, bp), Nodes(base, out))
      && Nodes(base, out)[t].addr == p && 0 <= t <= |out|
      && Sorted(base, out) && Inserted(rs, bp, n) == Some(out)
  {
    hide Ring, Nodes, Sorted, Disjoint, Canonical;
    SortedCanonical(base, rs);
    InsertedIs(rs, t, bp, n);
    JoinedSorted(base, rs, t, bp, n);
    Neighbours(mem, base, rs, t, bp, n);
    FreeRelinks(mem, base, rs, t, bp, n);
    var (i, j, q) := Joined(rs, t, bp, n);
    SplicedLen(rs, i, j, q);
  }

  /** Fresh memory holds no node of the ring. */
  lemma NotLinked(base: int, h: Heap, owned: iset<int>, a: int, n: int)
    requires Partitioned(h, owned) && 0 < n && base < a && Span(a, n) !! owned
    ensures var ns := Nodes(base, h.free); forall i {:trigger ns[i]} :: 0 <= i < |ns| ==> ns[i].addr != a
  {
    var ns := Nodes(base, h.free);
    NodesAt(base, h.free);
    assert Within(a, n, a);
    forall i | 0 <= i < |ns|
      ensures ns[i].addr != a
    {
      if 0 < i {
        assert h.free[i - 1] == ns[i];
        assert In(h.free, ns[i].addr);
      }
    }
  }

  lemma RingSized(mem: map<int, Header>, ns: seq<Run>, a: int, n: int)
    requires Ring(mem, ns) && forall i {:trigger ns[i]} :: 0 <= i < |ns| ==> ns[i].addr != a
    ensures Ring(Sized(mem, a, n), ns)
  {
  }

  lemma CarvedLen(rs: seq<Run>, k: int, n: int)
    requires 0 <= k < |rs|
    ensures k <= |Carved(rs, k, n)|
  {
  }

  /** The headers malloc writes when it takes units from block k are not those of other live blocks. */
  lemma TakeApart(base: int, h: Heap, owned: iset<int>, n: int, a: int, k: int)
    requires Partitioned(h, owned) && 0 <= k < |h.free| && 0 < n <= h.free[k].len
      && a == h.free[k].addr + h.free[k].len - n
    requires forall x {:trigger x in owned} :: x in owned ==> base < x
    ensures forall b {:trigger h.live[b]} :: b in h.live ==>
      b != a && b != h.free[k].addr && b != Nodes(base, h.free)[k].addr
    ensures base < a
  {
    forall b | b in h.live
      ensures b != a && b != h.free[k].addr && b != Nodes(base, h.free)[k].addr
    {
      LiveApart(base, h, owned, b, k);
      LiveApart(base, h, owned, b, k + 1);
      assert Disjoint(h.free, b, h.live[b]);
    }
    assert In(h.free, a);
  }

  lemma FirstRing(mem: map<int, Header>, base: int)
    requires 0 < base
    ensures Ring(mem[base := Header(base, 0)], Nodes(base, [])) && Sorted(base, []) && Nodes(base, [])[0].addr == base
  {
  }

  lemma NodeAt(mem: map<int, Header>, base: int, rs: seq<Run>, k: int)
    requires Ring(mem, Nodes(base, rs)) && 0 <= k <= |rs|
    ensures var ns := Nodes(base, rs);
      ns[k].addr in mem && mem[ns[k].addr] == Header(ns[Next(k, |rs| + 1)].addr, ns[k].len)
  {
  }

  lemma SearchedNone(ns: seq<Run>, f: int, n: int)
    requires 0 <= f < |ns|
    ensures Searched(ns, f, 0, n)
  {
  }

  /** A node with room is a free block, not the base. */
  lemma FoundAt(base: int, rs: seq<Run>, i: int, n: int)
    requires 0 <= i <= |rs| && 0 < n <= Nodes(base, rs)[i].len
    ensures 0 < i && Nodes(base, rs)[i] == rs[i - 1] && Fits(rs, n)
  {
    NodesAt(base, rs);
    assert 0 < i ==> n <= rs[i - 1].len;
  }

  lemma SameNode(base: int, rs: seq<Run>, i: int, j: int)
    requires Sorted(base, rs) && 0 <= i <= |rs| && 0 <= j <= |rs|
    ensures Nodes(base, rs)[i].addr == Nodes(base, rs)[j].addr <==> i == j
  {
    if i != j {
      NodesDistinct(base, rs, i, j);
    }
  }

  lemma InsertedFitsMore(rs: seq<Run>, p: int, len: int, n: int)
    requires Canonical(rs) && 0 < n <= len && Inserted(rs, p, len).Some?
    ensures Fits(Inserted(rs, p, len).value, n)
  {
    InsertedFits(rs, p, len);
    var out := Inserted(rs, p, len).value;
    var k :| 0 <= k < |out| && len <= out[k].len;
    assert n <= out[k].len;
  }
}
