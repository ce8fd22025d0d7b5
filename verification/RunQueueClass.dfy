/** A run queue with its scheduling-class operations (rq.h, sched_RR.c, sched_fifo.c, init_rq in proc.c). */
module RunQueues {
  import opened Lists
  import opened ProcTable
  import opened NodePool
  import opened BalanceSpec

  class RunQueue {
    const id: int
    const maxSlices: int
    var nodes: seq<Node>
    var nextToRun: int
    var lastToRun: int
    var freeList: int
    var procNum: int
    ghost var free: seq<int>
    ghost var active: seq<int>

    ghost predicate ValidRing()
      reads this
      ensures ValidRing() ==> |nodes| == NPROC && InRange(active, NPROC) && (nextToRun == NIL <==> active == [])
    {
      RingQueue(nodes, nextToRun, freeList, free, active) && procNum == |active|
    }

    ghost predicate ValidFifo()
      reads this
      ensures ValidFifo() ==> |nodes| == NPROC && InRange(active, NPROC) && (nextToRun == NIL <==> active == [])
    {
      FifoQueue(nodes, nextToRun, lastToRun, freeList, free, active) && procNum == |active|
    }

    /** The queued processes, next to run first. */
    ghost function Contents(): (s: seq<int>)
      requires |nodes| == NPROC && InRange(active, NPROC)
      reads this
      ensures |s| == |active|
    {
      Procs(nodes, active)
    }

    /** init_rq: every node is free. */
    constructor (id: int, maxSlices: int)
      ensures this.id == id && this.maxSlices == maxSlices
      ensures ValidRing() && ValidFifo() && Contents() == []
    {
      this.id, this.maxSlices := id, maxSlices;
      var ns := seq(NPROC, i => Node(NIL, i + 1, NIL));
      nodes := ns[NPROC - 1 := ns[NPROC - 1].(next := NIL)];
      freeList, nextToRun, lastToRun, procNum := 0, NIL, NIL, 0;
      free, active := seq(NPROC, i => i), [];
    }

    method EnqueueRR(t: Table, p: int)
      requires ValidRing() && |active| < NPROC
      requires 0 <= p < |t.procs|
      modifies this, t
      ensures ValidRing()
      ensures Contents() == old(Contents()) + [p]
      ensures t.procs == old(t.procs)[p := EnteredRing(old(t.procs[p]), id, maxSlices)]
    {
      hide RingQueue, Procs, InRange;
      EnqueueRing(nodes, nextToRun, freeList, free, active, p);
      var pnode, ns := freeList, nodes;
      freeList := ns[pnode].next;
      var q := t.procs[p];
      if q.rq != id {
        q := q.(timeslice := maxSlices);
      }
      ns := ns[pnode := ns[pnode].(proc := p)];
      if nextToRun == NIL {
        nextToRun, lastToRun := pnode, pnode;
        ns := ns[pnode := ns[pnode].(next := pnode, prev := pnode)];
      } else {
        var last := ns[nextToRun].prev;
        ns := ns[last := ns[last].(next := pnode)];
        ns := ns[pnode := ns[pnode].(prev := ns[nextToRun].prev)];
        ns := ns[pnode := ns[pnode].(next := nextToRun)];
        ns := ns[nextToRun := ns[nextToRun].(prev := pnode)];
      }
      nodes := ns;
      t.procs := t.procs[p := q.(rq := id)];
      procNum := procNum + 1;
      free, active := free[1..], active + [pnode];
    }

    /** The search loop of dequeue_proc_RR; k is the position of the node it stops at. */
    method FindRR(p: int) returns (node: int, ghost k: int)
      requires ValidRing() && Contents() != []
      ensures 0 <= k < |active| && node == active[k]
      ensures |Contents()| == |active| && p !in Contents()[..k] && (Contents()[k] == p || k == |active| - 1)
    {
      hide RingQueue, Procs;
      node, k := nextToRun, 0;
      RingWalk(nodes, nextToRun, freeList, free, active, 0);
      while node != nodes[nextToRun].prev && nodes[node].proc != p
        invariant 0 <= k < |active| && node == active[k] && 0 <= node < NPROC
        invariant p !in Contents()[..k]
        invariant nodes[node].proc == Contents()[k]
        invariant node == nodes[nextToRun].prev <==> k == |active| - 1
        decreases |active| - k
      {
        RingWalk(nodes, nextToRun, freeList, free, active, k);
        RingWalk(nodes, nextToRun, freeList, free, active, k + 1);
        node, k := nodes[node].next, k + 1;
      }
    }

    /**
     The first p leaves the ring, or the last node when p is not queued; only a ring of one node does not survive
     that.
     */
    method DequeueRR(p: int) returns (ghost k: int)
      requires ValidRing() && Contents() != []
      modifies this
      ensures 0 <= k < |old(Contents())| && p !in old(Contents())[..k]
      ensures old(Contents())[k] == p || k == |old(Contents())| - 1
      ensures First(old(Contents())) == p ==> k == 0
      ensures |nodes| == NPROC && InRange(active, NPROC) && Contents() == Without(old(Contents()), k)
      ensures ValidRing() <==> p in old(Contents()) || 1 < |old(Contents())|
    {
      hide RingQueue, Procs, Distinct, InRange;
      var node;
      node, k := FindRR(p);
      DequeueRing(nodes, nextToRun, freeList, free, active, k);
      RingWalk(nodes, nextToRun, freeList, free, active, k);
      var ns := nodes;
      if p == ns[nextToRun].proc {
        nextToRun := if ns[node].next == node then NIL else ns[nextToRun].next;
      }
      if ns[node].next != node {
        ns := ns[ns[node].prev := ns[ns[node].prev].(next := ns[node].next)];
        ns := ns[ns[node].next := ns[ns[node].next].(prev := ns[node].prev)];
      }
      nodes := ns[node := ns[node].(next := freeList)];
      freeList := node;
      procNum := procNum - 1;
      free, active := [node] + free, Without(active, k);
    }

    method YieldRR()
      requires ValidRing()
      modifies this
      ensures ValidRing()
      ensures Contents() == Rotated(old(Contents()))
    {
      hide RingQueue, Procs, Rotated;
      RotateRing(nodes, nextToRun, freeList, free, active);
      if nextToRun != NIL {
        nextToRun := nodes[nextToRun].next;
        active := Rotated(active);
      }
    }

    method EnqueueFifo(t: Table, p: int)
      requires ValidFifo() && |active| < NPROC
      requires 0 <= p < |t.procs|
      modifies this, t
      ensures ValidFifo()
      ensures Contents() == old(Contents()) + [p]
      ensures t.procs == old(t.procs)[p := EnteredFifo(old(t.procs[p]), id)]
    {
      hide FifoQueue, Procs, InRange;
      NodePool.EnqueueFifo(nodes, nextToRun, lastToRun, freeList, free, active, p);
      var pnode, ns := freeList, nodes;
      freeList := ns[pnode].next;
      ns := ns[pnode := ns[pnode].(proc := p)];
      ns := ns[pnode := ns[pnode].(next := NIL)];
      if nextToRun == NIL {
        nextToRun, lastToRun := pnode, pnode;
      } else {
        ns := ns[lastToRun := ns[lastToRun].(next := pnode)];
        lastToRun := pnode;
      }
      nodes := ns;
      t.procs := t.procs[p := t.procs[p].(rq := id)];
      procNum := procNum + 1;
      free, active := free[1..], active + [pnode];
    }

    /** The search loop of dequeue_proc_fifo; before is the node visited just before, NIL at the head. */
    method FindFifo(p: int) returns (before: int, node: int, ghost k: int)
      requires ValidFifo() && Contents() != []
      ensures 0 <= k < |active| && node == active[k] && before == Before(active, k, NIL)
      ensures |Contents()| == |active| && p !in Contents()[..k] && (Contents()[k] == p || k == |active| - 1)
    {
      hide FifoQueue, Procs;
      before, node, k := NIL, nextToRun, 0;
      FifoWalk(nodes, nextToRun, lastToRun, freeList, free, active, 0);
      while node != lastToRun && nodes[node].proc != p
        invariant 0 <= k < |active| && node == active[k] && 0 <= node < NPROC && before == Before(active, k, NIL)
        invariant p !in Contents()[..k]
        invariant nodes[node].proc == Contents()[k]
        invariant node == lastToRun <==> k == |active| - 1
        decreases |active| - k
      {
        FifoWalk(nodes, nextToRun, lastToRun, freeList, free, active, k);
        FifoWalk(nodes, nextToRun, lastToRun, freeList, free, active, k + 1);
        before, node, k := node, nodes[node].next, k + 1;
      }
    }

    /**
     The first p leaves the list, or the tail when p is not queued. lastToRun is not moved: the list survives
     exactly when the node was not the tail of a longer list. With a single node that is not p the source
     dereferences a null pointer.
     */
    method DequeueFifo(p: int) returns (ghost k: int)
      requires ValidFifo() && (p in Contents() || 1 < |Contents()|)
      modifies this
      ensures 0 <= k < |old(Contents())| && p !in old(Contents())[..k]
      ensures old(Contents())[k] == p || k == |old(Contents())| - 1
      ensures First(old(Contents())) == p ==> k == 0
      ensures |nodes| == NPROC && InRange(active, NPROC) && Contents() == Without(old(Contents()), k)
      ensures ValidFifo() <==> k < |old(Contents())| - 1 || |old(Contents())| == 1
    {
      hide FifoQueue, Procs, Distinct, InRange;
      var before, node;
      before, node, k := FindFifo(p);
      NodePool.DequeueFifo(nodes, nextToRun, lastToRun, freeList, free, active, k);
      FifoWalk(nodes, nextToRun, lastToRun, freeList, free, active, k);
      var ns := nodes;
      if p == ns[nextToRun].proc {
        nextToRun := ns[node].next;
      } else {
        ns := ns[before := ns[before].(next := ns[node].next)];
      }
      nodes := ns[node := ns[node].(next := freeList)];
      freeList := node;
      procNum := procNum - 1;
      free, active := [node] + free, Without(active, k);
    }

    /** The list survives exactly when it has at most one element; see YieldFifoBreaks. */
    method YieldFifo()
      requires ValidFifo()
      modifies this`nodes, this`nextToRun, this`lastToRun
      ensures |active| <= 1 ==> ValidFifo() && Contents() == old(Contents())
      ensures 1 < |active| ==> nextToRun == active[1] && lastToRun == active[0]
      ensures 1 < |active| ==> forall f, a :: !FifoQueue(nodes, nextToRun, lastToRun, freeList, f, a)
    {
      if nextToRun != NIL {
        FifoWalk(nodes, nextToRun, lastToRun, freeList, free, active, 0);
        if nextToRun == lastToRun {
          return;
        }
        YieldFifoBreaks(nodes, nextToRun, lastToRun, freeList, free, active);
        hide FifoQueue, Procs;
        nodes := nodes[lastToRun := nodes[lastToRun].(next := nextToRun)];
        nextToRun, lastToRun := nodes[nextToRun].next, nodes[lastToRun].next;
      }
    }

    /** The queue while nodes leave it: all of it is in order but the count. */
    ghost predicate Leaving(s: seq<int>, i: int, ring: bool)
      reads this
    {
      && 0 <= i <= |s| / 2 && procNum == |s| && |nodes| == NPROC && InRange(active, NPROC)
      && (if ring then RingQueue(nodes, nextToRun, freeList, free, active)
           else FifoQueue(nodes, nextToRun, lastToRun, freeList, free, active))
      && |active| == |s| - i
      && Procs(nodes, active) == if s == [] then [] else [s[0]] + s[1 + i..]
    }

    /** One node unlinked in get_proc_RR: the second of the ring. */
    method TakeSecondRR(cnode: int, ghost s: seq<int>, ghost i: int) returns (next: int)
      requires Leaving(s, i, true) && i < |s| / 2 && 1 < |active| && cnode == active[1]
      modifies this`nodes, this`freeList, this`free, this`active
      ensures Leaving(s, i + 1, true) && (1 < |active| ==> next == active[1])
    {
      hide RingQueue, Procs, Distinct, InRange;
      DequeueRing(nodes, nextToRun, freeList, free, active, 1);
      RingWalk(nodes, nextToRun, freeList, free, active, 1);
      WithoutSecond(s, i);
      WithoutAt(active, 1);
      var prev;
      prev, next := nodes[cnode].prev, nodes[cnode].next;
      var ns := nodes;
      ns := ns[prev := ns[prev].(next := next)];
      ns := ns[next := ns[next].(prev := prev)];
      nodes := ns[cnode := ns[cnode].(next := freeList)];
      freeList := cnode;
      free, active := [cnode] + free, Without(active, 1);
    }

    /** What a caller's array of NPROC / 2 entries holds is enough for half of any queue. */
    lemma HalfFits()
      requires ValidRing() || ValidFifo()
      ensures |Contents()| / 2 <= NPROC / 2
    {
    }

    /** get_proc_RR: half of the ring, from the second node on; the panic for too short a ring is not reached. */
    method GetProcRR() returns (moved: seq<int>)
      requires ValidRing()
      modifies this`nodes, this`freeList, this`procNum, this`free, this`active
      ensures ValidRing() && Contents() == Kept(old(Contents())) && moved == Moved(old(Contents()))
      ensures |moved| == |old(Contents())| / 2 <= NPROC / 2
    {
      hide RingQueue, Procs, Distinct, InRange, Pool;
      ghost var s := Contents();
      HalfFits();
      var num := procNum / 2;
      var cnode := NIL;
      if nextToRun != NIL {
        RingWalk(nodes, nextToRun, freeList, free, active, 0);
        cnode := nodes[nextToRun].next;
        assert [s[0]] + s[1..] == s;
      }
      moved := [];
      var i := 0;
      while i < num
        invariant 0 <= i <= num == |s| / 2 && Leaving(s, i, true)
        invariant moved == if s == [] then [] else s[1..1 + i]
        invariant i < num ==> 1 < |active| && cnode == active[1]
      {
        RingWalk(nodes, nextToRun, freeList, free, active, 1);
        moved := moved + [nodes[cnode].proc];
        cnode := TakeSecondRR(cnode, s, i);
        i := i + 1;
      }
      procNum := procNum - num;
    }

    /** One node cut out in get_proc_fifo: the second of the list; the tail moves when it was the last. */
    method TakeSecondFifo(cnode: int, ghost s: seq<int>, ghost i: int)
      requires Leaving(s, i, false) && i < |s| / 2 && 1 < |active| && cnode == active[0]
      modifies this`nodes, this`lastToRun, this`freeList, this`free, this`active
      ensures Leaving(s, i + 1, false) && active[0] == cnode
    {
      hide FifoQueue, Procs, Distinct, InRange;
      NodePool.DequeueFifo(nodes, nextToRun, lastToRun, freeList, free, active, 1);
      FifoWalk(nodes, nextToRun, lastToRun, freeList, free, active, 0);
      WithoutSecond(s, i);
      WithoutAt(active, 1);
      var next := nodes[cnode].next;
      if next == lastToRun {
        lastToRun := cnode;
      }
      var ns := nodes[cnode := nodes[cnode].(next := nodes[next].next)];
      nodes := ns[next := ns[next].(next := freeList)];
      freeList := next;
      free, active := [next] + free, Without(active, 1);
    }

    /** get_proc_fifo. */
    method GetProcFifo() returns (moved: seq<int>)
      requires ValidFifo()
      modifies this`nodes, this`lastToRun, this`freeList, this`procNum, this`free, this`active
      ensures ValidFifo() && Contents() == Kept(old(Contents())) && moved == Moved(old(Contents()))
      ensures |moved| == |old(Contents())| / 2 <= NPROC / 2
    {
      hide FifoQueue, Procs, Distinct, InRange, Pool;
      ghost var s := Contents();
      HalfFits();
      var num := procNum / 2;
      var cnode := nextToRun;
      if nextToRun != NIL {
        FifoWalk(nodes, nextToRun, lastToRun, freeList, free, active, 0);
        assert [s[0]] + s[1..] == s;
      }
      moved := [];
      var i := 0;
      while i < num
        invariant 0 <= i <= num == |s| / 2 && Leaving(s, i, false)
        invariant moved == if s == [] then [] else s[1..1 + i]
        invariant active != [] ==> cnode == active[0]
      {
        FifoWalk(nodes, nextToRun, lastToRun, freeList, free, active, 0);
        FifoWalk(nodes, nextToRun, lastToRun, freeList, free, active, 1);
        moved := moved + [nodes[nodes[cnode].next].proc];
        TakeSecondFifo(cnode, s, i);
        i := i + 1;
      }
      procNum := procNum - num;
    }

    /** pick_next_proc_RR and pick_next_proc_fifo. */
    method Pick() returns (p: int)
      requires ValidRing() || ValidFifo()
      ensures p == First(Contents())
    {
      if nextToRun == NIL {
        return NIL;
      }
      return nodes[nextToRun].proc;
    }
  }

  lemma WithoutSecond(s: seq<int>, i: int)
    requires 0 <= i < |s| / 2
    ensures var left := [s[0]] + s[1 + i..];
      1 < |left| && left[1] == s[1 + i] && Without(left, 1) == [s[0]] + s[2 + i..]
  {
  }
}
