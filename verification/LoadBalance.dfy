/** load_balance_MLFQ over the run queues of all CPUs (sched_MLFQ.c). */
module LoadBalance {
  import opened ProcTable
  import opened NodePool
  import opened RunQueues
  import opened BalanceSpec

  /** The queues of one level. */
  function Level(view: seq<seq<int>>, l: int): (r: seq<seq<int>>)
    requires |view| == 3 * NCPU && 0 <= l < 3
    ensures |r| == NCPU
  {
    view[l * NCPU..(l + 1) * NCPU]
  }

  class Machine {
    /** rqs: level 1 of every CPU, then level 2, then level 3. */
    const rqs: seq<RunQueue>
    const table: Table
    const ncpu: int

    constructor (rqs: seq<RunQueue>, table: Table, ncpu: int)
      ensures this.rqs == rqs && this.table == table && this.ncpu == ncpu
    {
      this.rqs, this.table, this.ncpu := rqs, table, ncpu;
    }

    ghost predicate Valid()
      reads this, rqs, table
    {
      && |rqs| == 3 * NCPU && 0 <= ncpu <= NCPU && |table.procs| == NPROC
      && (forall i, j {:trigger rqs[i], rqs[j]} :: 0 <= i < j < |rqs| ==> rqs[i] != rqs[j])
      && (forall i {:trigger rqs[i]} :: 0 <= i < |rqs| ==>
           if i < 2 * NCPU then rqs[i].ValidRing() else rqs[i].ValidFifo())
    }

    /** What is queued, queue by queue. */
    ghost function View(): (v: seq<seq<int>>)
      requires Valid()
      reads this, rqs, table
      ensures |v| == 3 * NCPU
    {
      seq(3 * NCPU, i requires 0 <= i < 3 * NCPU reads this, rqs, table requires Valid() => rqs[i].Contents())
    }

    /** A process as enqueue_proc on queue i leaves it; ring or list by the level. */
    function Entered(i: int, x: Proc): (r: Proc)
      requires 0 <= i < |rqs|
      ensures r.rq == rqs[i].id && x.(rq := r.rq, timeslice := r.timeslice) == r
    {
      if i < 2 * NCPU then EnteredRing(x, rqs[i].id, rqs[i].maxSlices) else EnteredFifo(x, rqs[i].id)
    }

    /** A process after the three enqueueing loops for CPU dst: it names the last queue it was put on. */
    function Landed(dst: int, x: Proc, in0: bool, in1: bool, in2: bool): (r: Proc)
      requires 0 <= dst < NCPU && |rqs| == 3 * NCPU
      ensures x.(rq := r.rq, timeslice := r.timeslice) == r && (!in0 && !in1 && !in2 ==> r == x)
      ensures in2 ==> r.rq == rqs[dst + 2 * NCPU].id
      ensures in1 && !in2 ==> r.rq == rqs[dst + NCPU].id
      ensures in0 && !in1 && !in2 ==> r.rq == rqs[dst].id
    {
      var a := if in0 then Entered(dst, x) else x;
      var b := if in1 then Entered(dst + NCPU, a) else a;
      if in2 then Entered(dst + 2 * NCPU, b) else b
    }

    /** get_proc on one queue. */
    method Get(i: int) returns (moved: seq<int>)
      requires Valid() && 0 <= i < 3 * NCPU
      modifies rqs
      ensures Valid() && moved == Moved(old(View())[i]) && View() == old(View())[i := Kept(old(View())[i])]
    {
      hide RunQueue.ValidRing, RunQueue.ValidFifo, RunQueue.Contents, Moved, Kept;
      ghost var v := View();
      if i < 2 * NCPU {
        moved := rqs[i].GetProcRR();
      } else {
        moved := rqs[i].GetProcFifo();
      }
      assert View() == v[i := Kept(v[i])];
    }

    /** enqueue_proc of one process. */
    method Put(i: int, p: int)
      requires Valid() && 0 <= i < 3 * NCPU && 0 <= p < NPROC && |View()[i]| < NPROC
      modifies rqs, table
      ensures Valid() && View() == old(View())[i := old(View())[i] + [p]]
      ensures table.procs == old(table.procs)[p := Entered(i, old(table.procs[p]))]
    {
      hide RunQueue.ValidRing, RunQueue.ValidFifo, RunQueue.Contents;
      ghost var v := View();
      assert |v[i]| == |rqs[i].active|;
      if i < 2 * NCPU {
        rqs[i].EnqueueRR(table, p);
      } else {
        rqs[i].EnqueueFifo(table, p);
      }
      assert View() == v[i := v[i] + [p]];
    }

    /** The loop that enqueues what was taken. */
    method PutAll(i: int, ps: seq<int>)
      requires Valid() && 0 <= i < 3 * NCPU && |View()[i]| + |ps| <= NPROC
      requires forall k {:trigger ps[k]} :: 0 <= k < |ps| ==> 0 <= ps[k] < NPROC
      modifies rqs, table
      ensures Valid() && View() == old(View())[i := old(View())[i] + ps]
      ensures |table.procs| == NPROC
      ensures forall p {:trigger table.procs[p]} :: 0 <= p < NPROC ==>
        table.procs[p] == if p in ps then Entered(i, old(table.procs)[p]) else old(table.procs)[p]
    {
      hide Machine.Valid;
      Shape();
      ghost var v := View();
      assert v[i] + ps[..0] == v[i];
      assert v[i := v[i] + ps[..0]] == v;
      var k := 0;
      while k < |ps|
        invariant 0 <= k <= |ps| && Valid() && |rqs| == 3 * NCPU && |table.procs| == NPROC
          && View() == v[i := v[i] + ps[..k]]
        invariant forall p {:trigger table.procs[p]} :: 0 <= p < NPROC ==>
          table.procs[p] == if p in ps[..k] then Entered(i, old(table.procs)[p]) else old(table.procs)[p]
      {
        Put(i, ps[k]);
        Shape();
        assert ps[..k + 1] == ps[..k] + [ps[k]];
        assert v[i] + ps[..k] + [ps[k]] == v[i] + ps[..k + 1];
        k := k + 1;
      }
      assert ps[..k] == ps;
    }

    lemma Shape()
      requires Valid()
      ensures |rqs| == 3 * NCPU && |table.procs| == NPROC && 0 <= ncpu <= NCPU
    {
    }

    method Busiest() returns (src: int)
      requires Valid()
      ensures src == BusiestOf(View(), ncpu)
    {
      hide Machine.View, Load;
      var max := 0;
      src := -1;
      for i := 0 to ncpu
        invariant src == BusiestOf(View(), i) && max == if src == -1 then 0 else Load(View(), src)
      {
        Sizes(i);
        if rqs[i].procNum + rqs[i + NCPU].procNum + rqs[i + 2 * NCPU].procNum > max {
          src := i;
          max := rqs[i].procNum + rqs[i + NCPU].procNum + rqs[i + 2 * NCPU].procNum;
        }
      }
    }

    lemma Sizes(i: int)
      requires Valid() && 0 <= i < NCPU
      ensures rqs[i].procNum + rqs[i + NCPU].procNum + rqs[i + 2 * NCPU].procNum == Load(View(), i)
    {
      assert rqs[i].ValidRing() && rqs[i + NCPU].ValidRing() && rqs[i + 2 * NCPU].ValidFifo();
    }

    /** get_proc at the three levels of CPU src. */
    method GetThree(src: int) returns (m0: seq<int>, m1: seq<int>, m2: seq<int>)
      requires Valid() && 0 <= src < NCPU
      modifies rqs
      ensures Valid() && View() == Taken(old(View()), src)
      ensures m0 == Moved(old(View())[src]) && m1 == Moved(old(View())[src + NCPU])
        && m2 == Moved(old(View())[src + 2 * NCPU])
    {
      hide Machine.Valid, Machine.View, Moved, Kept;
      m0 := Get(src);
      m1 := Get(src + NCPU);
      m2 := Get(src + 2 * NCPU);
    }

    /** The three enqueueing loops for CPU dst. */
    method PutThree(dst: int, m0: seq<int>, m1: seq<int>, m2: seq<int>)
      requires Valid() && 0 <= dst < NCPU && InTable(m0) && InTable(m1) && InTable(m2)
      requires |View()[dst]| + |m0| <= NPROC && |View()[dst + NCPU]| + |m1| <= NPROC
        && |View()[dst + 2 * NCPU]| + |m2| <= NPROC
      modifies rqs, table
      ensures Valid() && View() == Given(old(View()), dst, m0, m1, m2)
      ensures forall p {:trigger table.procs[p]} :: 0 <= p < NPROC ==>
        table.procs[p] == Landed(dst, old(table.procs)[p], p in m0, p in m1, p in m2)
    {
      hide Machine.Valid, Machine.View, Machine.Entered;
      Shape();
      PutAll(dst, m0);
      ghost var t1 := table.procs;
      PutAll(dst + NCPU, m1);
      ghost var t2 := table.procs;
      PutAll(dst + 2 * NCPU, m2);
      Shape();
      assert forall p {:trigger table.procs[p]} :: 0 <= p < NPROC ==> t2[p] == t2[p] && t1[p] == t1[p];
    }

    /** load_balance_MLFQ for CPU dst: at every level half of the busiest CPU's queue moves, behind its head. */
    method Balance(dst: int)
      requires Valid() && 0 <= dst < ncpu
      requires forall l {:trigger Level(View(), l)} :: 0 <= l < 3 ==> Once(Level(View(), l), NPROC)
      modifies rqs, table
      ensures Valid() && View() == AfterBalance(old(View()), ncpu, dst)
      ensures var v := old(View());
        var src := BusiestOf(v, ncpu);
        if src == -1 then table.procs == old(table.procs)
        else forall p {:trigger table.procs[p]} :: 0 <= p < NPROC ==>
          table.procs[p] ==
            Landed(dst, old(table.procs)[p], p in Moved(v[src]), p in Moved(v[src + NCPU]),
            p in Moved(v[src + 2 * NCPU]))
    {
      hide Machine.Valid, Machine.View, Machine.Landed, Once, Moved, Taken, Given;
      Shape();
      var src := Busiest();
      if src == -1 {
        return;
      }
      Room(View(), 0, src, dst);
      Room(View(), 1, src, dst);
      Room(View(), 2, src, dst);
      var m0, m1, m2 := GetThree(src);
      PutThree(dst, m0, m1, m2);
    }

    /** yield_proc_MLFQ on CPU i: the lists survive exactly when it does not come to a third level of two or more. */
    method YieldProc(i: int)
      requires Valid() && 0 <= i < NCPU
      modifies rqs
      ensures Valid() <==> !YieldBreaks(old(View()), i)
      ensures Valid() ==> View() == AfterYield(old(View()), i)
    {
      hide RunQueue.ValidRing, RunQueue.Contents, FifoQueue, Procs;
      ghost var v := View();
      assert |v[i]| == |rqs[i].active| && |v[i + NCPU]| == |rqs[i + NCPU].active|
        && |v[i + 2 * NCPU]| == |rqs[i + 2 * NCPU].active|;
      if rqs[i].nextToRun != NIL {
        rqs[i].YieldRR();
        assert View() == AfterYield(v, i);
      } else if rqs[i + NCPU].nextToRun != NIL {
        rqs[i + NCPU].YieldRR();
        assert View() == AfterYield(v, i);
      } else if rqs[i + 2 * NCPU].nextToRun != NIL {
        rqs[i + 2 * NCPU].YieldFifo();
        assert |v[i + 2 * NCPU]| > 1 ==> !rqs[i + 2 * NCPU].ValidFifo();
        assert Valid() ==> View() == v;
      }
    }

    /** A timer tick that finds CPU dst idle: load_balance, then yield_proc. */
    method IdleTick(dst: int)
      requires Valid() && 0 <= dst < ncpu
      requires forall l {:trigger Level(View(), l)} :: 0 <= l < 3 ==> Once(Level(View(), l), NPROC)
      modifies rqs, table
      ensures Valid() <==> !TickBreaks(old(View()), ncpu, dst)
      ensures Valid() ==> View() == AfterYield(AfterBalance(old(View()), ncpu, dst), dst)
    {
      hide Machine.Valid, Machine.View, Once, AfterYield, AfterBalance, YieldBreaks, TickBreaks;
      ghost var v := View();
      Shape();
      TickBreaksExactly(v, ncpu, dst);
      Balance(dst);
      YieldProc(dst);
    }
  }

  /** All that is queued on CPU i. */
  function Load(v: seq<seq<int>>, i: int): int
    requires |v| == 3 * NCPU && 0 <= i < NCPU
  {
    |v[i]| + |v[i + NCPU]| + |v[i + 2 * NCPU]|
  }

  /** The first of n CPUs with the largest load, -1 when nothing is queued on any. */
  function BusiestOf(v: seq<seq<int>>, n: int): (src: int)
    requires |v| == 3 * NCPU && 0 <= n <= NCPU
    ensures -1 <= src < n
    ensures src == -1 <==> forall i {:trigger Load(v, i)} :: 0 <= i < n ==> Load(v, i) == 0
    ensures src != -1 ==> 0 < Load(v, src)
    ensures src != -1 ==> forall i {:trigger Load(v, i)} :: 0 <= i < n ==>
      Load(v, i) <= Load(v, src) && (i < src ==> Load(v, i) < Load(v, src))
  {
    if n == 0 then -1 else
      var src := BusiestOf(v, n - 1);
      if Load(v, n - 1) > (if src == -1 then 0 else Load(v, src)) then n - 1 else src
  }

  function AfterBalance(v: seq<seq<int>>, n: int, dst: int): (r: seq<seq<int>>)
    requires |v| == 3 * NCPU && 0 <= dst < n <= NCPU
    ensures |r| == |v|
  {
    var src := BusiestOf(v, n);
    if src == -1 then v else Rebalanced(v, src, dst)
  }

  function AfterYield(v: seq<seq<int>>, i: int): (r: seq<seq<int>>)
    requires |v| == 3 * NCPU && 0 <= i < NCPU
  {
    if v[i] != [] then v[i := Rotated(v[i])]
    else if v[i + NCPU] != [] then v[i + NCPU := Rotated(v[i + NCPU])]
    else v
  }

  /** yield_proc_MLFQ comes to yield_proc_fifo with a list it breaks. */
  predicate YieldBreaks(v: seq<seq<int>>, i: int)
    requires |v| == 3 * NCPU && 0 <= i < NCPU
  {
    v[i] == [] && v[i + NCPU] == [] && |v[i + 2 * NCPU]| >= 2
  }

  /** The idle tick of CPU dst breaks a list, told from the queues before the tick. */
  predicate TickBreaks(v: seq<seq<int>>, n: int, dst: int)
    requires |v| == 3 * NCPU && 0 <= dst < n <= NCPU
  {
    var src := BusiestOf(v, n);
    && src != -1 && v[dst] == [] && v[dst + NCPU] == []
    && if src == dst then |v[dst + 2 * NCPU]| >= 2
       else |v[src]| <= 1 && |v[src + NCPU]| <= 1 && |v[dst + 2 * NCPU]| + |v[src + 2 * NCPU]| / 2 >= 2
  }

  /** The tick breaks the third-level list exactly when what was queued before the balancing says so. */
  lemma TickBreaksExactly(v: seq<seq<int>>, n: int, dst: int)
    requires |v| == 3 * NCPU && 0 <= dst < n <= NCPU
    ensures TickBreaks(v, n, dst) <==> YieldBreaks(AfterBalance(v, n, dst), dst)
  {
    hide Kept, Moved, BusiestOf;
    var src := BusiestOf(v, n);
    if src == -1 {
      assert Load(v, dst) == 0;
    } else {
      SplitConserves(v[src]);
      SplitConserves(v[src + NCPU]);
      SplitConserves(v[src + 2 * NCPU]);
      ReceivedAt(v, src, dst);
    }
  }

  lemma ReceivedAt(v: seq<seq<int>>, src: int, dst: int)
    requires |v| == 3 * NCPU && 0 <= src < NCPU && 0 <= dst < NCPU
    ensures var r := Rebalanced(v, src, dst);
      && r[dst] == (if src == dst then Kept(v[dst]) else v[dst]) + Moved(v[src])
      && r[dst + NCPU] == (if src == dst then Kept(v[dst + NCPU]) else v[dst + NCPU]) + Moved(v[src + NCPU])
      && r[dst + 2 * NCPU] ==
         (if src == dst then Kept(v[dst + 2 * NCPU]) else v[dst + 2 * NCPU]) + Moved(v[src + 2 * NCPU])
  {
    hide Kept, Moved;
  }

  /** For an idle CPU with nothing queued: the busiest CPU has its work, at least four processes, at the third level. */
  lemma TickBreaksWhenEmpty(v: seq<seq<int>>, n: int, dst: int)
    requires |v| == 3 * NCPU && 0 <= dst < n <= NCPU && Load(v, dst) == 0
    ensures TickBreaks(v, n, dst) <==>
      var src := BusiestOf(v, n);
      src != -1 && |v[src]| <= 1 && |v[src + NCPU]| <= 1 && |v[src + 2 * NCPU]| >= 4
  {
  }

  /** Two CPUs, four processes at the third level of the second: the first, being idle, breaks the list it is given. */
  lemma IdleTickBreaks(v: seq<seq<int>>)
    requires v == seq(3 * NCPU, i => if i == 2 * NCPU + 1 then [3, 4, 5, 6] else [])
    ensures (forall l {:trigger Level(v, l)} :: 0 <= l < 3 ==> Once(Level(v, l), NPROC)) && TickBreaks(v, 2, 0)
  {
    hide All, Once;
    forall l | 0 <= l < 3
      ensures Once(Level(v, l), NPROC)
    {
      if l < 2 {
        NobodyTwice(Level(v, l), []);
      } else {
        NobodyTwice(Level(v, l), [3, 4, 5, 6]);
      }
    }
    assert Load(v, 0) == 0 && Load(v, 1) == 4;
  }

  lemma NobodyTwice(qs: seq<seq<int>>, ps: seq<int>)
    requires |qs| == NCPU && (ps == [] || ps == [3, 4, 5, 6])
    requires forall i {:trigger qs[i]} :: 0 <= i < |qs| ==> qs[i] == if i == 1 then ps else []
    ensures Once(qs, NPROC)
  {
    hide All;
    AllEmpty(qs[1 := []]);
    AllChange(qs, 1, [], multiset(ps));
  }

  lemma {:induction false} AllEmpty(qs: seq<seq<int>>)
    requires forall i {:trigger qs[i]} :: 0 <= i < |qs| ==> qs[i] == []
    ensures All(qs) == multiset{}
    decreases |qs|
  {
    if qs != [] {
      AllEmpty(qs[1..]);
    }
  }

  predicate InTable(ps: seq<int>) {
    forall k {:trigger ps[k]} :: 0 <= k < |ps| ==> 0 <= ps[k] < NPROC
  }

  function Taken(v: seq<seq<int>>, src: int): (r: seq<seq<int>>)
    requires |v| == 3 * NCPU && 0 <= src < NCPU
    ensures |r| == |v|
  {
    v[src := Kept(v[src])][src + NCPU := Kept(v[src + NCPU])][src + 2 * NCPU := Kept(v[src + 2 * NCPU])]
  }

  function Given(v: seq<seq<int>>, dst: int, m0: seq<int>, m1: seq<int>, m2: seq<int>): (r: seq<seq<int>>)
    requires |v| == 3 * NCPU && 0 <= dst < NCPU
    ensures |r| == |v|
  {
    v[dst := v[dst] + m0][dst + NCPU := v[dst + NCPU] + m1][dst + 2 * NCPU := v[dst + 2 * NCPU] + m2]
  }

  function Rebalanced(v: seq<seq<int>>, src: int, dst: int): (r: seq<seq<int>>)
    requires |v| == 3 * NCPU && 0 <= src < NCPU && 0 <= dst < NCPU
    ensures |r| == |v|
  {
    Given(Taken(v, src), dst, Moved(v[src]), Moved(v[src + NCPU]), Moved(v[src + 2 * NCPU]))
  }

  /** Level by level, the machine is balanced as BalanceSpec says. */
  lemma RebalancedLevel(v: seq<seq<int>>, l: int, src: int, dst: int)
    requires |v| == 3 * NCPU && 0 <= src < NCPU && 0 <= dst < NCPU && 0 <= l < 3
    ensures Level(Rebalanced(v, src, dst), l) == Balanced(Level(v, l), src, dst)
  {
    hide Kept, Moved;
    assert Level(v, l)[src] == v[l * NCPU + src];
  }

  /** No process is lost or queued twice at any level, over all CPUs. */
  lemma LoadBalanceConserves(v: seq<seq<int>>, l: int, src: int, dst: int)
    requires |v| == 3 * NCPU && 0 <= src < NCPU && 0 <= dst < NCPU && 0 <= l < 3
    ensures All(Level(Rebalanced(v, src, dst), l)) == All(Level(v, l))
    ensures Once(Level(v, l), NPROC) ==> Once(Level(Rebalanced(v, src, dst), l), NPROC)
  {
    hide Level, Rebalanced, Balanced, All;
    RebalancedLevel(v, l, src, dst);
    BalancedConserves(Level(v, l), src, dst);
  }

  /** The pool of the receiving queue has a free node for every process moved. */
  lemma Room(v: seq<seq<int>>, l: int, src: int, dst: int)
    requires |v| == 3 * NCPU && 0 <= src < NCPU && 0 <= dst < NCPU && 0 <= l < 3 && Once(Level(v, l), NPROC)
    ensures |Taken(v, src)[dst + l * NCPU]| + |Moved(v[src + l * NCPU])| <= NPROC
    ensures InTable(Moved(v[src + l * NCPU]))
  {
    hide Kept, Moved, All, Once;
    var qs := Level(v, l);
    assert qs[src] == v[src + l * NCPU] && qs[dst] == v[dst + l * NCPU];
    BalancedFits(qs, src, dst, NPROC);
    MovedInTable(qs, src);
    assert Balanced(qs, src, dst)[dst] == Taken(v, src)[dst + l * NCPU] + Moved(qs[src]);
  }

  lemma MovedInTable(qs: seq<seq<int>>, src: int)
    requires 0 <= src < |qs| && Once(qs, NPROC)
    ensures InTable(Moved(qs[src]))
  {
    var m := multiset(qs[src]);
    AllChange(qs, src, [], m);
    hide All;
    forall k | 0 <= k < |Moved(qs[src])|
      ensures 0 <= Moved(qs[src])[k] < NPROC
    {
      var p := qs[src][1 + k];
      assert p in qs[src];
      assert m[p] > 0;
      assert All(qs)[p] > 0;
    }
  }

  /** pinit for every CPU, and four processes enqueued at the third level of the second of two. */
  method FourOnSecond() returns (m: Machine)
    ensures m.Valid() && m.ncpu == 2 && fresh(m.rqs) && fresh(m.table)
    ensures m.View() == seq(3 * NCPU, i => if i == 2 * NCPU + 1 then [3, 4, 5, 6] else [])
  {
    hide RunQueue.ValidRing, RunQueue.ValidFifo, RunQueue.Contents;
    var rqs: seq<RunQueue> := [];
    for i := 0 to 3 * NCPU
      invariant |rqs| == i && fresh(rqs)
      invariant forall j, k {:trigger rqs[j], rqs[k]} :: 0 <= j < k < i ==> rqs[j] != rqs[k]
      invariant forall j {:trigger rqs[j]} :: 0 <= j < i ==>
        rqs[j].ValidRing() && rqs[j].ValidFifo() && rqs[j].Contents() == []
    {
      var q := new RunQueue(i, if i < NCPU then 20 else 500);
      rqs := rqs + [q];
    }
    var table := new Table(seq(NPROC, i => Proc(UNUSED, 0, NIL, NoChan, false, 0, NIL)));
    m := new Machine(rqs, table, 2);
    m.PutAll(2 * NCPU + 1, [3, 4, 5, 6]);
    assert [] + [3, 4, 5, 6] == [3, 4, 5, 6];
  }

  /** The first CPU is idle when its timer ticks: afterwards its third level is no list any more. */
  method BreaksOnTick() returns (m: Machine)
    ensures !m.Valid()
  {
    m := FourOnSecond();
    IdleTickBreaks(m.View());
    m.IdleTick(0);
  }
}
