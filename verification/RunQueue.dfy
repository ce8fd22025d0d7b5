/**
 The list structure of one run queue, as values: a pool of NPROC nodes threaded either into a
 circular doubly-linked ring (sched_RR.c) or into a singly-linked list with a tail pointer
 (sched_fifo.c), the unused nodes being threaded into a free list (init_rq in proc.c).
 The lemmas say what each group of pointer updates does to the sequence of queued nodes.
 */
module NodePool {
  import opened Lists
  import opened ProcTable

  datatype Node = Node(proc: int, next: int, prev: int)

  /** The pool is the disjoint union of the free nodes and the active ones. */
  ghost predicate Pool(free: seq<int>, active: seq<int>) {
    && |free| + |active| == NPROC
    && InRange(free, NPROC)
    && InRange(active, NPROC)
    && Distinct(free)
    && Distinct(active)
    && (forall i, j :: 0 <= i < |free| && 0 <= j < |active| ==> free[i] != active[j])
  }

  function First(list: seq<int>): int {
    if list == [] then NIL else list[0]
  }

  /** Along next, the nodes are exactly list in order, and the last one points nowhere. */
  ghost predicate Chain(ns: seq<Node>, list: seq<int>)
    requires |ns| == NPROC && InRange(list, NPROC)
  {
    forall i {:trigger ns[list[i]]} :: 0 <= i < |list| ==> ns[list[i]].next == After(list, i, NIL)
  }

  /** The nodes of list form a ring, in order along next and in reverse along prev. */
  ghost predicate Ring(ns: seq<Node>, list: seq<int>)
    requires |ns| == NPROC && InRange(list, NPROC)
  {
    && (forall i {:trigger ns[list[i]]} :: 0 <= i < |list| ==> ns[list[i]].next == After(list, i, list[0]))
    && (forall i {:trigger ns[list[i]]} :: 0 <= i < |list| ==> ns[list[i]].prev == Before(list, i, list[|list| - 1]))
  }

  ghost function Procs(ns: seq<Node>, list: seq<int>): (s: seq<int>)
    requires |ns| == NPROC && InRange(list, NPROC)
  {
    seq(|list|, i requires 0 <= i < |list| => ns[list[i]].proc)
  }

  function Rotated(s: seq<int>): (r: seq<int>) {
    if s == [] then [] else s[1..] + [s[0]]
  }

  /** The pool holds the ring active, entered at head, and the free list free, entered at fl. */
  ghost predicate RingQueue(ns: seq<Node>, head: int, fl: int, free: seq<int>, active: seq<int>) {
    && |ns| == NPROC
    && Pool(free, active)
    && fl == First(free) && Chain(ns, free)
    && head == First(active) && Ring(ns, active)
  }

  /** The pool holds the list active, from head to tail, and the free list free, entered at fl. */
  ghost predicate FifoQueue(ns: seq<Node>, head: int, tail: int, fl: int, free: seq<int>, active: seq<int>) {
    && |ns| == NPROC
    && Pool(free, active)
    && fl == First(free) && Chain(ns, free)
    && head == First(active) && Chain(ns, active)
    && (active != [] ==> tail == active[|active| - 1])
  }

  // ---------------------------------------------------------------- the free list

  /** Relinking nodes that are not on a list does not disturb the list. */
  lemma ChainFrame(ns: seq<Node>, ns2: seq<Node>, list: seq<int>)
    requires |ns| == |ns2| == NPROC && InRange(list, NPROC)
    requires Chain(ns, list)
    requires forall i {:trigger ns2[list[i]]} :: 0 <= i < |list| ==> ns2[list[i]].next == ns[list[i]].next
    ensures Chain(ns2, list)
  {
  }

  lemma ChainTail(ns: seq<Node>, list: seq<int>)
    requires |ns| == NPROC && InRange(list, NPROC) && list != []
    requires Chain(ns, list)
    ensures ns[list[0]].next == First(list[1..])
    ensures InRange(list[1..], NPROC) && Chain(ns, list[1..])
  {
    forall i | 0 <= i < |list[1..]|
      ensures ns[list[1..][i]].next == After(list[1..], i, NIL)
    {
      assert list[1..][i] == list[i + 1];
      assert ns[list[i + 1]].next == After(list, i + 1, NIL);
    }
    assert ns[list[0]].next == After(list, 0, NIL);
  }

  /** Pushing node k onto the front of a list it is not on. */
  lemma ChainPush(ns: seq<Node>, list: seq<int>, k: int)
    requires |ns| == NPROC && InRange(list, NPROC) && 0 <= k < NPROC && k !in list
    requires Chain(ns, list) && ns[k].next == First(list)
    ensures InRange([k] + list, NPROC) && Chain(ns, [k] + list)
  {
    var longer := [k] + list;
    forall i | 0 <= i < |longer|
      ensures ns[longer[i]].next == After(longer, i, NIL)
    {
      if 0 < i {
        assert ns[list[i - 1]].next == After(list, i - 1, NIL);
      }
    }
  }

  lemma PoolTake(free: seq<int>, active: seq<int>)
    requires Pool(free, active) && free != []
    ensures Pool(free[1..], active + [free[0]]) && free[0] !in active && free[0] !in free[1..]
  {
  }

  lemma PoolGive(free: seq<int>, active: seq<int>, k: int)
    requires Pool(free, active) && 0 <= k < |active|
    ensures active[k] !in free && active[k] !in Without(active, k)
    ensures Pool([active[k]] + free, Without(active, k))
  {
    WithoutAt(active, k);
  }

  // ---------------------------------------------------------------- the ring

  /** The pool after the pointer updates of enqueue_proc_RR, in their order. */
  function PushRing(ns: seq<Node>, head: int, k: int, p: int): (r: seq<Node>)
    requires |ns| == NPROC && 0 <= k < NPROC
    requires head != NIL ==> 0 <= head < NPROC && head != k && 0 <= ns[head].prev < NPROC
    ensures |r| == NPROC
  {
    var filled := ns[k := ns[k].(proc := p)];
    if head == NIL then
      filled[k := filled[k].(next := k, prev := k)]
    else
      var last := filled[head].prev;
      var a := filled[last := filled[last].(next := k)];
      var b := a[k := a[k].(prev := a[head].prev)];
      var c := b[k := b[k].(next := head)];
      c[head := c[head].(prev := k)]
  }

  lemma PushRingAt(ns: seq<Node>, list: seq<int>, k: int, p: int, i: int)
    requires |ns| == NPROC && InRange(list, NPROC) && 0 <= k < NPROC
    requires Distinct(list) && k !in list
    requires Ring(ns, list)
    requires 0 <= i <= |list|
    ensures list != [] ==> list[0] != k && ns[list[0]].prev == list[|list| - 1]
    ensures var r, longer := PushRing(ns, First(list), k, p), list + [k];
      && r[longer[i]].next == After(longer, i, longer[0])
      && r[longer[i]].prev == Before(longer, i, k)
      && r[longer[i]].proc == (if i < |list| then ns[list[i]].proc else p)
  {
    if list != [] {
      assert ns[list[0]].prev == list[|list| - 1];
    }
    if i < |list| {
      var node := list[i];
      assert ns[node].next == After(list, i, list[0]) && ns[node].prev == Before(list, i, list[|list| - 1]);
      assert 0 < i ==> node != list[0];
      assert i + 1 < |list| ==> node != list[|list| - 1];
    }
  }

  lemma PushRingRing(ns: seq<Node>, list: seq<int>, k: int, p: int)
    requires |ns| == NPROC && InRange(list, NPROC) && 0 <= k < NPROC
    requires Distinct(list) && k !in list
    requires Ring(ns, list)
    ensures list != [] ==> list[0] != k && ns[list[0]].prev == list[|list| - 1]
    ensures InRange(list + [k], NPROC) && Ring(PushRing(ns, First(list), k, p), list + [k])
    ensures Procs(PushRing(ns, First(list), k, p), list + [k]) == Procs(ns, list) + [p]
  {
    PushRingAt(ns, list, k, p, 0);
    var r, longer := PushRing(ns, First(list), k, p), list + [k];
    forall i | 0 <= i < |longer|
      ensures r[longer[i]].next == After(longer, i, longer[0])
      ensures r[longer[i]].prev == Before(longer, i, k)
      ensures r[longer[i]].proc == (if i < |list| then ns[list[i]].proc else p)
    {
      PushRingAt(ns, list, k, p, i);
    }
  }

  /** enqueue_proc_RR: the first free node joins the ring just before its entry point, at the end of the round. */
  lemma EnqueueRing(ns: seq<Node>, head: int, fl: int, free: seq<int>, active: seq<int>, p: int)
    requires RingQueue(ns, head, fl, free, active) && |active| < NPROC
    ensures 0 <= fl < NPROC && free != [] && fl == free[0]
    ensures head == NIL <==> active == []
    ensures head != NIL ==> 0 <= head < NPROC && head != fl && 0 <= ns[head].prev < NPROC
    ensures RingQueue(PushRing(ns, head, fl, p), if head == NIL then fl else head, ns[fl].next, free[1..],
      active + [fl])
    ensures Procs(PushRing(ns, head, fl, p), active + [fl]) == Procs(ns, active) + [p]
  {
    PoolTake(free, active);
    PushRingRing(ns, active, fl, p);
    ChainTail(ns, free);
    var r := PushRing(ns, head, fl, p);
    forall i | 0 <= i < |free[1..]|
      ensures r[free[1..][i]].next == ns[free[1..][i]].next
    {
      assert free[1..][i] == free[i + 1];
    }
    ChainFrame(ns, r, free[1..]);
  }

  /** The pool after the pointer updates of dequeue_proc_RR and get_proc_RR that free a node. */
  function UnlinkRing(ns: seq<Node>, node: int, fl: int): (r: seq<Node>)
    requires |ns| == NPROC && 0 <= node < NPROC
    requires 0 <= ns[node].next < NPROC && 0 <= ns[node].prev < NPROC
    requires ns[node].next != node ==> ns[node].prev != node
    ensures |r| == NPROC
  {
    if ns[node].next != node then
      var a := ns[ns[node].prev := ns[ns[node].prev].(next := ns[node].next)];
      var b := a[a[node].next := a[a[node].next].(prev := a[node].prev)];
      b[node := b[node].(next := fl)]
    else
      ns[node := ns[node].(next := fl)]
  }

  lemma RingIntro(ns: seq<Node>, list: seq<int>, ps: seq<int>)
    requires |ns| == NPROC && InRange(list, NPROC) && |ps| == |list|
    requires forall i {:trigger ns[list[i]]} :: 0 <= i < |list| ==>
      && ns[list[i]].next == After(list, i, list[0])
      && ns[list[i]].prev == Before(list, i, list[|list| - 1])
      && ns[list[i]].proc == ps[i]
    ensures Ring(ns, list) && Procs(ns, list) == ps
  {
  }

  /** The neighbours of the k-th node of a ring. */
  lemma RingNeighbours(ns: seq<Node>, list: seq<int>, k: int)
    requires |ns| == NPROC && InRange(list, NPROC) && Distinct(list) && Ring(ns, list)
    requires 0 <= k < |list|
    ensures ns[list[k]].next == After(list, k, list[0]) && ns[list[k]].prev == Before(list, k, list[|list| - 1])
    ensures 0 <= ns[list[k]].next < NPROC && 0 <= ns[list[k]].prev < NPROC
    ensures ns[list[k]].next == list[k] <==> |list| == 1
    ensures ns[list[k]].prev == list[k] <==> |list| == 1
    ensures list[k] == list[|list| - 1] <==> k == |list| - 1
    ensures list[k] == list[0] <==> k == 0
  {
  }

  /** Only its two neighbours are adjacent to the k-th node. */
  lemma RingAdjacent(ns: seq<Node>, list: seq<int>, k: int, i: int)
    requires |ns| == NPROC && InRange(list, NPROC) && Distinct(list) && Ring(ns, list)
    requires 0 <= k < |list| && 0 <= i < |list| && i != k
    ensures list[i] != list[k]
    ensures list[i] == ns[list[k]].next <==> i == (if k + 1 < |list| then k + 1 else 0)
    ensures list[i] == ns[list[k]].prev <==> i == (if 0 < k then k - 1 else |list| - 1)
  {
    RingNeighbours(ns, list, k);
  }

  lemma UnlinkRingAt(ns: seq<Node>, list: seq<int>, k: int, fl: int, i: int)
    requires |ns| == NPROC && InRange(list, NPROC) && Distinct(list) && Ring(ns, list)
    requires 0 <= k < |list| && 0 <= i < |list| && i != k
    ensures ns[list[k]].next != list[k] && ns[list[k]].prev != list[k]
    ensures 0 <= ns[list[k]].next < NPROC && 0 <= ns[list[k]].prev < NPROC
    ensures var r, rest := UnlinkRing(ns, list[k], fl), Without(list, k);
      var j := if i < k then i else i - 1;
      && rest[j] == list[i]
      && r[list[i]].next == After(rest, j, rest[0])
      && r[list[i]].prev == Before(rest, j, rest[|rest| - 1])
      && r[list[i]].proc == ns[list[i]].proc
  {
    hide Ring, Distinct, UnlinkRing;
    RingNeighbours(ns, list, k);
    RingNeighbours(ns, list, i);
    RingAdjacent(ns, list, k, i);
    WithoutAt(list, k);
    UnlinkRingEffect(ns, list[k], fl, list[i]);
  }

  /** What unlinking node does to another node. */
  lemma UnlinkRingEffect(ns: seq<Node>, node: int, fl: int, other: int)
    requires |ns| == NPROC && 0 <= node < NPROC && 0 <= other < NPROC && other != node
    requires 0 <= ns[node].next < NPROC && 0 <= ns[node].prev < NPROC && ns[node].next != node && ns[node].prev != node
    ensures var r := UnlinkRing(ns, node, fl);
      && r[other].next == (if other == ns[node].prev then ns[node].next else ns[other].next)
      && r[other].prev == (if other == ns[node].next then ns[node].prev else ns[other].prev)
      && r[other].proc == ns[other].proc
  {
  }

  lemma UnlinkRingRing(ns: seq<Node>, list: seq<int>, k: int, fl: int)
    requires |ns| == NPROC && InRange(list, NPROC) && Distinct(list) && Ring(ns, list)
    requires 0 <= k < |list|
    ensures 0 <= ns[list[k]].next < NPROC && 0 <= ns[list[k]].prev < NPROC
    ensures ns[list[k]].next == list[k] <==> ns[list[k]].prev == list[k]
    ensures InRange(Without(list, k), NPROC) && Ring(UnlinkRing(ns, list[k], fl), Without(list, k))
    ensures Procs(UnlinkRing(ns, list[k], fl), Without(list, k)) == Without(Procs(ns, list), k)
  {
    hide UnlinkRing, After, Before, Distinct, Ring;
    WithoutAt(list, k);
    RingNeighbours(ns, list, k);
    var r, rest := UnlinkRing(ns, list[k], fl), Without(list, k);
    var ps := Without(Procs(ns, list), k);
    forall j | 0 <= j < |rest|
      ensures r[rest[j]].next == After(rest, j, rest[0])
      ensures r[rest[j]].prev == Before(rest, j, rest[|rest| - 1])
      ensures r[rest[j]].proc == ps[j]
    {
      UnlinkRingAt(ns, list, k, fl, if j < k then j else j + 1);
    }
    RingIntro(r, rest, ps);
  }

  /** dequeue_proc_RR: the k-th node leaves the ring for the front of the free list. */
  lemma DequeueRing(ns: seq<Node>, head: int, fl: int, free: seq<int>, active: seq<int>, k: int)
    requires RingQueue(ns, head, fl, free, active) && 0 <= k < |active|
    ensures 0 <= active[k] < NPROC && 0 <= head < NPROC
    ensures 0 <= ns[active[k]].next < NPROC && 0 <= ns[active[k]].prev < NPROC
    ensures ns[active[k]].next == active[k] <==> ns[active[k]].prev == active[k]
    ensures ns[active[k]].next == active[k] <==> |active| == 1
    ensures var entry := if k != 0 then head else if ns[active[k]].next == active[k] then NIL else ns[head].next;
      RingQueue(UnlinkRing(ns, active[k], fl), entry, active[k], [active[k]] + free, Without(active, k))
    ensures InRange(Without(active, k), NPROC)
    ensures Procs(UnlinkRing(ns, active[k], fl), Without(active, k)) == Without(Procs(ns, active), k)
  {
    hide Ring, UnlinkRing, Distinct, Chain;
    RingNeighbours(ns, active, k);
    UnlinkRingRing(ns, active, k, fl);
    PoolGive(free, active, k);
    UnlinkRingFree(ns, fl, free, active, k);
    WithoutAt(active, k);
  }

  lemma UnlinkRingFree(ns: seq<Node>, fl: int, free: seq<int>, active: seq<int>, k: int)
    requires |ns| == NPROC && Pool(free, active) && Ring(ns, active) && Chain(ns, free)
    requires 0 <= k < |active| && fl == First(free)
    requires 0 <= ns[active[k]].next < NPROC && 0 <= ns[active[k]].prev < NPROC
    requires ns[active[k]].next != active[k] ==> ns[active[k]].prev != active[k]
    ensures InRange([active[k]] + free, NPROC) && Chain(UnlinkRing(ns, active[k], fl), [active[k]] + free)
  {
    RingNeighbours(ns, active, k);
    var r := UnlinkRing(ns, active[k], fl);
    forall i | 0 <= i < |free|
      ensures r[free[i]].next == ns[free[i]].next
    {
    }
    ChainFrame(ns, r, free);
    ChainPush(r, free, active[k]);
  }

  /** One step of the search along next, as dequeue_proc_RR makes it: it stops at the entry's predecessor. */
  lemma RingWalk(ns: seq<Node>, head: int, fl: int, free: seq<int>, active: seq<int>, k: int)
    requires RingQueue(ns, head, fl, free, active) && 0 <= k < |active|
    ensures head == active[0] && 0 <= head < NPROC && 0 <= active[k] < NPROC
    ensures active[k] == ns[head].prev <==> k == |active| - 1
    ensures k < |active| - 1 ==> ns[active[k]].next == active[k + 1]
    ensures |Procs(ns, active)| == |active| && ns[active[k]].proc == Procs(ns, active)[k]
    ensures ns[head].proc == Procs(ns, active)[0]
  {
    RingNeighbours(ns, active, 0);
    RingNeighbours(ns, active, k);
  }

  lemma RotatedAt(ns: seq<Node>, active: seq<int>, i: int)
    requires |ns| == NPROC && InRange(active, NPROC) && Distinct(active) && Ring(ns, active) && 0 <= i < |active|
    ensures var turned := Rotated(active);
      && ns[turned[i]].next == After(turned, i, turned[0])
      && ns[turned[i]].prev == Before(turned, i, turned[|turned| - 1])
      && ns[turned[i]].proc == Rotated(Procs(ns, active))[i]
  {
    hide Ring, Distinct;
    RingNeighbours(ns, active, if i + 1 < |active| then i + 1 else 0);
  }

  /** yield_proc_RR: the entry point moves one node on. */
  lemma RotateRing(ns: seq<Node>, head: int, fl: int, free: seq<int>, active: seq<int>)
    requires RingQueue(ns, head, fl, free, active)
    ensures head == NIL <==> active == []
    ensures head != NIL ==> 0 <= head < NPROC && RingQueue(ns, ns[head].next, fl, free, Rotated(active))
    ensures InRange(Rotated(active), NPROC) && Procs(ns, Rotated(active)) == Rotated(Procs(ns, active))
    ensures |Rotated(active)| == |active| && (head == NIL ==> Rotated(active) == active)
  {
    if active == [] {
      return;
    }
    hide Ring, Distinct, Chain, Before;
    var turned := Rotated(active);
    RotatePool(free, active);
    RingNeighbours(ns, active, 0);
    forall i | 0 <= i < |turned|
      ensures ns[turned[i]].next == After(turned, i, turned[0])
      ensures ns[turned[i]].prev == Before(turned, i, turned[|turned| - 1])
      ensures ns[turned[i]].proc == Rotated(Procs(ns, active))[i]
    {
      RotatedAt(ns, active, i);
    }
    RingIntro(ns, turned, Rotated(Procs(ns, active)));
  }

  lemma RotatePool(free: seq<int>, active: seq<int>)
    requires Pool(free, active) && active != []
    ensures Pool(free, Rotated(active)) && |Rotated(active)| == |active|
    ensures forall i {:trigger Rotated(active)[i]} :: 0 <= i < |active| ==>
      Rotated(active)[i] == active[if i + 1 < |active| then i + 1 else 0]
  {
    var turned := Rotated(active);
    assert forall i :: 0 <= i < |turned| ==> turned[i] == active[if i + 1 < |active| then i + 1 else 0];
  }

  // ---------------------------------------------------------------- the list with a tail

  /** The pool after the pointer updates of enqueue_proc_fifo. */
  function PushFifo(ns: seq<Node>, head: int, tail: int, k: int, p: int): (r: seq<Node>)
    requires |ns| == NPROC && 0 <= k < NPROC
    requires head != NIL ==> 0 <= tail < NPROC
    ensures |r| == NPROC
  {
    var filled := ns[k := ns[k].(proc := p)];
    var ended := filled[k := filled[k].(next := NIL)];
    if head == NIL then ended else ended[tail := ended[tail].(next := k)]
  }

  lemma EnqueueFifo(ns: seq<Node>, head: int, tail: int, fl: int, free: seq<int>, active: seq<int>, p: int)
    requires FifoQueue(ns, head, tail, fl, free, active) && |active| < NPROC
    ensures 0 <= fl < NPROC && free != [] && fl == free[0]
    ensures head == NIL <==> active == []
    ensures head != NIL ==> 0 <= tail < NPROC
    ensures FifoQueue(PushFifo(ns, head, tail, fl, p), if head == NIL then fl else head, fl, ns[fl].next, free[1..],
      active + [fl])
    ensures Procs(PushFifo(ns, head, tail, fl, p), active + [fl]) == Procs(ns, active) + [p]
  {
    PoolTake(free, active);
    ChainTail(ns, free);
    var r, longer := PushFifo(ns, head, tail, fl, p), active + [fl];
    forall i | 0 <= i < |free[1..]|
      ensures r[free[1..][i]].next == ns[free[1..][i]].next
    {
      assert free[1..][i] == free[i + 1];
    }
    ChainFrame(ns, r, free[1..]);
    forall i | 0 <= i < |longer|
      ensures r[longer[i]].next == After(longer, i, NIL)
      ensures r[longer[i]].proc == (Procs(ns, active) + [p])[i]
    {
      if i < |active| {
        assert ns[active[i]].next == After(active, i, NIL);
        assert i + 1 < |active| ==> active[i] != tail;
      }
    }
  }

  /** The pool after node, which follows before (NIL for the head), is freed by dequeue_proc_fifo or get_proc_fifo. */
  function CutFifo(ns: seq<Node>, before: int, node: int, fl: int): (r: seq<Node>)
    requires |ns| == NPROC && 0 <= node < NPROC
    requires before != NIL ==> 0 <= before < NPROC
    ensures |r| == NPROC
  {
    var bridged := if before == NIL then ns else ns[before := ns[before].(next := ns[node].next)];
    bridged[node := bridged[node].(next := fl)]
  }

  lemma CutFifoChain(ns: seq<Node>, list: seq<int>, k: int, fl: int)
    requires |ns| == NPROC && InRange(list, NPROC) && Distinct(list) && Chain(ns, list)
    requires 0 <= k < |list|
    ensures InRange(Without(list, k), NPROC)
    ensures var before := Before(list, k, NIL);
      && Chain(CutFifo(ns, before, list[k], fl), Without(list, k))
      && Procs(CutFifo(ns, before, list[k], fl), Without(list, k)) == Without(Procs(ns, list), k)
  {
    hide Distinct, Chain;
    var before := Before(list, k, NIL);
    var r, rest := CutFifo(ns, before, list[k], fl), Without(list, k);
    WithoutAt(list, k);
    forall j | 0 <= j < |rest|
      ensures r[rest[j]].next == After(rest, j, NIL)
      ensures r[rest[j]].proc == Without(Procs(ns, list), k)[j]
    {
      CutFifoAt(ns, list, k, fl, if j < k then j else j + 1);
    }
    ChainIntro(r, rest, Without(Procs(ns, list), k));
  }

  lemma ChainIntro(ns: seq<Node>, list: seq<int>, ps: seq<int>)
    requires |ns| == NPROC && InRange(list, NPROC) && |ps| == |list|
    requires forall i {:trigger ns[list[i]]} :: 0 <= i < |list| ==>
      ns[list[i]].next == After(list, i, NIL) && ns[list[i]].proc == ps[i]
    ensures Chain(ns, list) && Procs(ns, list) == ps
  {
  }

  lemma CutFifoAt(ns: seq<Node>, list: seq<int>, k: int, fl: int, i: int)
    requires |ns| == NPROC && InRange(list, NPROC) && Distinct(list) && Chain(ns, list)
    requires 0 <= k < |list| && 0 <= i < |list| && i != k
    ensures var r, rest := CutFifo(ns, Before(list, k, NIL), list[k], fl), Without(list, k);
      var j := if i < k then i else i - 1;
      && rest[j] == list[i]
      && r[list[i]].next == After(rest, j, NIL)
      && r[list[i]].proc == ns[list[i]].proc
  {
    assert ns[list[k]].next == After(list, k, NIL);
    assert ns[list[i]].next == After(list, i, NIL);
    assert list[i] != list[k];
    assert 0 < k && i != k - 1 ==> list[i] != list[k - 1];
  }

  lemma WithoutLast(list: seq<int>, k: int)
    requires 0 <= k < |list| && Distinct(list)
    ensures var rest, tail := Without(list, k), list[|list| - 1];
      && First(rest) == (if k == 0 then After(list, 0, NIL) else list[0])
      && (rest != [] ==> rest[|rest| - 1] == (if k < |list| - 1 then tail else list[k - 1]))
      && (rest != [] && k == |list| - 1 ==> list[k - 1] != tail)
      && (list[k] == tail <==> k == |list| - 1)
  {
  }

  /**
   dequeue_proc_fifo: the k-th node leaves the list for the front of the free list. The tail pointer
   is not moved, so the result is a list again exactly when the node was not the tail of a longer list.
   */
  lemma DequeueFifo(ns: seq<Node>, head: int, tail: int, fl: int, free: seq<int>, active: seq<int>, k: int)
    requires FifoQueue(ns, head, tail, fl, free, active) && 0 <= k < |active|
    ensures 0 <= active[k] < NPROC && (0 < k ==> 0 <= active[k - 1] < NPROC)
    ensures var r := CutFifo(ns, Before(active, k, NIL), active[k], fl);
      var entry := if k == 0 then ns[active[k]].next else head;
      && InRange(Without(active, k), NPROC)
      && (FifoQueue(r, entry, tail, active[k], [active[k]] + free, Without(active, k)) <==>
           k < |active| - 1 || |active| == 1)
      && (0 < k ==>
           FifoQueue(r, entry, if active[k] == tail then active[k - 1] else tail, active[k], [active[k]] + free,
           Without(active, k)))
    ensures Procs(CutFifo(ns, Before(active, k, NIL), active[k], fl), Without(active, k)) ==
      Without(Procs(ns, active), k)
  {
    hide Distinct, Chain, CutFifo;
    FifoWalk(ns, head, tail, fl, free, active, k);
    CutFifoChain(ns, active, k, fl);
    PoolGive(free, active, k);
    CutFifoFree(ns, fl, free, active, k);
    WithoutAt(active, k);
    WithoutLast(active, k);
  }

  lemma CutFifoFree(ns: seq<Node>, fl: int, free: seq<int>, active: seq<int>, k: int)
    requires |ns| == NPROC && Pool(free, active) && Chain(ns, free)
    requires 0 <= k < |active| && fl == First(free)
    ensures InRange([active[k]] + free, NPROC)
      && Chain(CutFifo(ns, Before(active, k, NIL), active[k], fl), [active[k]] + free)
  {
    var r := CutFifo(ns, Before(active, k, NIL), active[k], fl);
    forall i | 0 <= i < |free|
      ensures r[free[i]].next == ns[free[i]].next
    {
    }
    ChainFrame(ns, r, free);
    ChainPush(r, free, active[k]);
  }

  /** One step of the search along next, as dequeue_proc_fifo makes it: it stops at the tail. */
  lemma FifoWalk(ns: seq<Node>, head: int, tail: int, fl: int, free: seq<int>, active: seq<int>, k: int)
    requires FifoQueue(ns, head, tail, fl, free, active) && 0 <= k < |active|
    ensures head == active[0] && 0 <= head < NPROC && 0 <= active[k] < NPROC
    ensures active[k] == tail <==> k == |active| - 1
    ensures ns[active[k]].next == After(active, k, NIL)
    ensures |Procs(ns, active)| == |active| && ns[active[k]].proc == Procs(ns, active)[k]
    ensures ns[head].proc == Procs(ns, active)[0]
  {
  }

  /**
   yield_proc_fifo on two or more nodes leaves the old head, now the tail, pointing at the new
   head: the pool then holds no list at all from head to tail, whatever sequences are proposed.
   */
  lemma YieldFifoBreaks(ns: seq<Node>, head: int, tail: int, fl: int, free: seq<int>, active: seq<int>)
    requires FifoQueue(ns, head, tail, fl, free, active) && 1 < |active|
    ensures 0 <= head < NPROC && 0 <= tail < NPROC && head != tail
    ensures var r := ns[tail := ns[tail].(next := head)];
      && r[tail].next == head
      && r[head].next == active[1]
      && (forall f, a :: !FifoQueue(r, r[head].next, head, fl, f, a))
  {
    FifoWalk(ns, head, tail, fl, free, active, 0);
    FifoWalk(ns, head, tail, fl, free, active, |active| - 1);
    var r := ns[tail := ns[tail].(next := head)];
    forall f, a
      ensures !FifoQueue(r, r[head].next, head, fl, f, a)
    {
      FifoTail(r, r[head].next, head, fl, f, a);
    }
  }

  lemma FifoTail(ns: seq<Node>, head: int, tail: int, fl: int, free: seq<int>, active: seq<int>)
    requires |ns| == NPROC && 0 <= tail < NPROC
    ensures FifoQueue(ns, head, tail, fl, free, active) ==> head == NIL || ns[tail].next == NIL
  {
    if FifoQueue(ns, head, tail, fl, free, active) && active != [] {
      assert ns[active[|active| - 1]].next == NIL;
    }
  }
}
