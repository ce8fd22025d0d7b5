/**
 The scheduler and the process life cycle of one CPU as the kernel executes them (proc.c, sysproc.c,
 sched_MLFQ.c): process table, three run queues, current process. Every operation is proved to be
 the event of the transition system in SchedSpec.
 */
module Scheduler {
  import opened Lists
  import opened ProcTable
  import opened NodePool
  import opened RunQueues
  import opened BalanceSpec
  import opened SchedSpec
  import opened SchedProofs
  import opened SchedRuns

  class Cpu {
    const table: Table
    const rq: RunQueue
    const rq2: RunQueue
    const rq3: RunQueue
    var curproc: int
    var np: seq<int>
    var nextpid: int

    ghost predicate Valid()
      reads this, table, rq, rq2, rq3
    {
      && rq != rq2 && rq != rq3 && rq2 != rq3
      && rq.id == 0 && rq.maxSlices == MaxSlices(0) && rq.ValidRing()
      && rq2.id == 1 && rq2.maxSlices == MaxSlices(1) && rq2.ValidRing()
      && rq3.id == 2 && rq3.ValidFifo()
    }

    /** The state of the transition system. */
    ghost function Abs(): (s: Kernel)
      requires Valid()
      reads this, table, rq, rq2, rq3
    {
      Kernel(table.procs, [rq.Contents(), rq2.Contents(), rq3.Contents()], curproc, np, nextpid)
    }

    /** pinit: an unused table and empty queues. */
    constructor ()
      ensures Valid() && fresh(table) && fresh(rq) && fresh(rq2) && fresh(rq3)
      ensures Abs() ==
        Kernel(seq(NPROC, i => Proc(UNUSED, 0, NIL, NoChan, false, 0, NIL)), [[], [], []], NIL, seq(NPROC, i => NIL), 1)
    {
      table := new Table(seq(NPROC, i => Proc(UNUSED, 0, NIL, NoChan, false, 0, NIL)));
      rq := new RunQueue(0, MaxSlices(0));
      rq2 := new RunQueue(1, MaxSlices(1));
      rq3 := new RunQueue(2, 0);
      curproc, np, nextpid := NIL, seq(NPROC, i => NIL), 1;
    }

    /** sub_sched_class->enqueue_proc of a level. */
    method Enqueue(p: int, level: int)
      requires Valid() && 0 <= p < |table.procs| && 0 <= level < LEVELS && |Abs().q[level]| < NPROC
      modifies table, rq, rq2, rq3
      ensures Valid() && Abs() == Enter(old(Abs()), p, level)
    {
      hide RunQueue.ValidRing, RunQueue.ValidFifo, RunQueue.Contents;
      if level == 0 {
        rq.EnqueueRR(table, p);
      } else if level == 1 {
        rq2.EnqueueRR(table, p);
      } else {
        rq3.EnqueueFifo(table, p);
      }
    }

    /**
     dequeue_proc: the first node of the process leaves the queue it names, or the last node when it is not there.
     An only node that is not the process does not survive that, nor does the tail of a longer third level.
     */
    method DequeueProc(p: int) returns (ghost k: int)
      requires Valid() && 0 <= p < |table.procs|
      requires var l := table.procs[p].rq;
        || p == IDLE || l == NIL
        || (0 <= l < LEVELS && Abs().q[l] != [] && (l < 2 || p in Abs().q[l] || 1 < |Abs().q[l]|))
      modifies rq, rq2, rq3
      ensures var s, l := old(Abs()), table.procs[p].rq;
        if p == IDLE || l == NIL then Valid() && Abs() == s
        else
          && 0 <= k < |s.q[l]| && p !in s.q[l][..k] && (s.q[l][k] == p || k == |s.q[l]| - 1)
          && (Valid() <==> if l < 2 then p in s.q[l] || 1 < |s.q[l]| else k < |s.q[l]| - 1 || |s.q[l]| == 1)
          && (Valid() ==> Abs() == s.(q := s.q[l := Without(s.q[l], k)]))
    {
      hide RunQueue.ValidRing, RunQueue.ValidFifo, RunQueue.Contents, Without;
      if p == IDLE || table.procs[p].rq == NIL {
        return 0;
      }
      var level := table.procs[p].rq;
      if level == 0 {
        k := rq.DequeueRR(p);
      } else if level == 1 {
        k := rq2.DequeueRR(p);
      } else {
        k := rq3.DequeueFifo(p);
      }
    }

    /** dequeue_proc of the process at the head of its queue. */
    method DequeueHead(p: int)
      requires Valid() && 0 <= p < |table.procs| && p != IDLE
      requires 0 <= table.procs[p].rq < LEVELS && First(Abs().q[table.procs[p].rq]) == p
      modifies rq, rq2, rq3
      ensures Valid() && Abs() == DropHead(old(Abs()), table.procs[p].rq)
    {
      hide RunQueue.ValidRing, RunQueue.ValidFifo, RunQueue.Contents;
      ghost var was := Abs().q[table.procs[p].rq];
      assert 0 < |was| ==> was[0] in was;
      var k := DequeueProc(p);
      assert Without(was, 0) == was[1..];
      assert Abs().q == DropHead(old(Abs()), table.procs[p].rq).q;
    }

    /** yield_proc_MLFQ: the highest non-empty level is rotated; a list of two or more nodes does not survive it. */
    method YieldProc()
      requires Valid()
      modifies rq, rq2, rq3
      ensures var s := old(Abs());
        && (Valid() <==> s.q[0] != [] || s.q[1] != [] || |s.q[2]| <= 1)
        && (Valid() ==> Abs() == s.(q := Yielded(s.q)))
    {
      hide RunQueue.ValidRing, RunQueue.Contents, FifoQueue, Procs;
      if rq.nextToRun != NIL {
        rq.YieldRR();
      } else if rq2.nextToRun != NIL {
        rq2.YieldRR();
      } else if rq3.nextToRun != NIL {
        rq3.YieldFifo();
      }
    }

    method PickNextProc() returns (p: int)
      requires Valid() && Shape(Abs())
      ensures p == Pick(Abs().q)
    {
      hide RunQueue.ValidRing, RunQueue.ValidFifo, RunQueue.Contents;
      p := rq.Pick();
      if p == NIL {
        p := rq2.Pick();
      }
      if p == NIL {
        p := rq3.Pick();
      }
      if p == NIL {
        p := IDLE;
      }
    }

    /**
     schedule: a current process that is not runnable leaves its queue, then the pick runs. An idle process that
     has exited resumes inside exit, which panics.
     */
    method Schedule() returns (panicked: bool)
      requires Valid() && Shape(Abs())
      requires var x := table.procs[curproc];
        x.state == RUNNABLE || x.state == RUNNING || curproc == IDLE
          || (0 <= x.rq < LEVELS && First(Abs().q[x.rq]) == curproc)
      modifies this`curproc, table, rq, rq2, rq3
      ensures Valid()
      ensures var s := old(Abs());
        var x := s.procs[s.cur];
        var t := if x.state == RUNNABLE || x.state == RUNNING || s.cur == IDLE then s else DropHead(s, x.rq);
        Abs() == Dispatch(t) && panicked == Stuck(t)
    {
      hide RunQueue.ValidRing, RunQueue.ValidFifo, RunQueue.Contents, Pick;
      var prev := curproc;
      if table.procs[prev].state != RUNNABLE && table.procs[prev].state != RUNNING {
        if prev != IDLE {
          DropShape(Abs(), table.procs[prev].rq);
          DequeueHead(prev);
        }
      }
      PickInRange(Abs());
      var next := PickNextProc();
      curproc := next;
      panicked := next == IDLE && table.procs[next].state == ZOMBIE;
      table.procs := table.procs[next := table.procs[next].(state := RUNNING)];
    }

    /** The loop of load_balance_MLFQ that enqueues what was taken; on one CPU it came from the same queue. */
    method PutBack(level: int, ps: seq<int>)
      requires Valid() && |table.procs| == NPROC && 0 <= level < LEVELS && |Abs().q[level]| + |ps| <= NPROC
      requires forall p {:trigger p in ps} :: p in ps ==> 0 <= p < NPROC && table.procs[p].rq == level
      modifies table, rq, rq2, rq3
      ensures Valid() && Abs() == old(Abs()).(q := old(Abs()).q[level := old(Abs()).q[level] + ps])
    {
      hide Cpu.Valid;
      ghost var s := Abs();
      assert s.q[level] + ps[..0] == s.q[level];
      assert s.q[level := s.q[level] + ps[..0]] == s.q;
      for k := 0 to |ps|
        invariant Valid() && Abs() == s.(q := s.q[level := s.q[level] + ps[..k]])
      {
        assert ps[k] in ps;
        Enqueue(ps[k], level);
        assert s.procs[ps[k] := s.procs[ps[k]]] == s.procs;
        assert s.q[level] + ps[..k] + [ps[k]] == s.q[level] + ps[..k + 1];
      }
      assert ps[..|ps|] == ps;
    }

    /** load_balance_MLFQ when this CPU is the only one: each level is balanced with itself. */
    method LoadBalance()
      requires Valid() && Shape(Abs()) && QueuesExact(Abs())
      modifies table, rq, rq2, rq3
      ensures Valid()
      ensures var s := old(Abs()); Abs() == s.(q := [Shuffled(s.q[0]), Shuffled(s.q[1]), Shuffled(s.q[2])])
    {
      hide RunQueue.ValidRing, RunQueue.ValidFifo, RunQueue.Contents, Kept, Moved, InRange, QueuesExact;
      ghost var s := Abs();
      TakenFacts(s, 0);
      TakenFacts(s, 1);
      TakenFacts(s, 2);
      if rq.procNum + rq2.procNum + rq3.procNum <= 0 {
        NothingQueued();
        return;
      }
      var m0 := rq.GetProcRR();
      var m1 := rq2.GetProcRR();
      var m2 := rq3.GetProcFifo();
      assert Abs() == s.(q := [Kept(s.q[0]), Kept(s.q[1]), Kept(s.q[2])]);
      PutBack(0, m0);
      PutBack(1, m1);
      PutBack(2, m2);
    }

    lemma NothingQueued()
      requires Valid() && rq.procNum + rq2.procNum + rq3.procNum <= 0
      ensures Abs().q == [[], [], []] && Shuffled([]) == []
    {
    }

    /** yield, which only the idle process reaches under the multi-level queue. */
    method Yield()
      requires Valid() && Shape(Abs()) && curproc == IDLE && Abs().q[1] == [] && Abs().q[2] == []
      modifies this`curproc, table, rq, rq2, rq3
      ensures Valid()
      ensures var s := old(Abs());
        var t := s.(procs := s.procs[s.cur := s.procs[s.cur].(state := RUNNABLE)], q := s.q[0 := Rotated(s.q[0])]);
        Shape(t) && Abs() == Dispatch(t)
    {
      hide Dispatch;
      hide RunQueue.ValidRing, RunQueue.ValidFifo, RunQueue.Contents;
      ghost var s := Abs();
      table.procs := table.procs[curproc := table.procs[curproc].(state := RUNNABLE)];
      YieldProc();
      assert Abs() == s.(procs := s.procs[s.cur := s.procs[s.cur].(state := RUNNABLE)], q := s.q[0 := Rotated(s.q[0])]);
      RotatedShape(s);
      var panicked := Schedule();
    }

    /** The end of trap for a timer interrupt that does not find a killed process in user mode. */
    method TimerTick()
      requires Valid() && Inv(Abs()) && Enabled(Abs(), Tick)
      modifies this`curproc, table, rq, rq2, rq3
      ensures Valid()
      ensures !Panics(old(Abs()), Tick) && Abs() == Step(old(Abs()), Tick)
    {
      hide QueuesExact, FamilyOk, PidsOk, WaitersOk, ForksOk, FixedOk, SlicesOk, Dispatch, Shuffled, IdleYielded;
      hide RunQueue.ValidRing, RunQueue.ValidFifo, RunQueue.Contents;
      PanicsExactly(Abs(), Tick);
      if curproc == IDLE {
        IdleSteps(Abs());
        LoadBalance();
        Yield();
      } else {
        ProcTick();
      }
    }

    /** proc_tick_MLFQ for a process that is not idle; for the idle one it is yield. */
    method ProcTick()
      requires Valid() && Inv(Abs()) && curproc != IDLE
      modifies this`curproc, table, rq, rq2, rq3
      ensures Valid()
      ensures !Panics(old(Abs()), Tick) && Abs() == Step(old(Abs()), Tick)
    {
      hide QueuesExact, CurrentHeads, FamilyOk, PidsOk, WaitersOk, ForksOk, FixedOk, SlicesOk, Dispatch, TickIdle;
      hide RunQueue.ValidRing, RunQueue.ValidFifo, RunQueue.Contents;
      var p := curproc;
      ghost var s := Abs();
      PanicsExactly(s, Tick);
      CurrentQueued(s);
      if table.procs[p].rq == 0 || table.procs[p].rq == 1 {
        var x := table.procs[p];
        table.procs := table.procs[p := x.(timeslice := x.timeslice - 1)];
        if table.procs[p].timeslice == 0 {
          RoomBelow(s);
          Demote();
        }
      } else if table.procs[p].rq == 2 {
        // proc_tick_fifo does nothing to a process that is not idle
      }
    }

    /** The part of proc_tick_MLFQ under the lock: the process moves to the next level. */
    method Demote()
      requires Valid() && Shape(Abs()) && curproc != IDLE && !IsIdle(curproc)
      requires var x := table.procs[curproc];
        0 <= x.rq < 2 && First(Abs().q[x.rq]) == curproc && |Abs().q[x.rq + 1]| < NPROC
      modifies this`curproc, table, rq, rq2, rq3
      ensures Valid()
      ensures var s := old(Abs());
        var t := Enter(DropHead(s, s.procs[s.cur].rq), s.cur, s.procs[s.cur].rq + 1);
        Shape(t) && Abs() == Dispatch(WithProc(t, s.cur, t.procs[s.cur].(state := RUNNABLE)))
    {
      hide RunQueue.ValidRing, RunQueue.ValidFifo, RunQueue.Contents, Dispatch;
      var p, level := curproc, table.procs[curproc].rq;
      DemoteShape(Abs());
      DequeueHead(p);
      Enqueue(p, level + 1);
      table.procs := table.procs[p := table.procs[p].(state := RUNNABLE)];
      var panicked := Schedule();
    }

    /** allocproc: the lowest unused slot becomes a half-made process; NIL when there is none. */
    method AllocProc() returns (p: int)
      requires Valid() && |table.procs| == NPROC
      modifies this`nextpid, table
      ensures Valid()
      ensures p == FindUnused(old(table.procs), 0)
      ensures var s := old(Abs());
        Abs() == if p == NIL then s
          else s.(procs := s.procs[p := s.procs[p].(state := EMBRYO, pid := s.nextpid, rq := NIL)],
          nextpid := s.nextpid + 1)
    {
      hide RunQueue.ValidRing, RunQueue.ValidFifo, RunQueue.Contents;
      for i := 0 to NPROC
        invariant Valid() && table.procs == old(table.procs) && nextpid == old(nextpid) && Abs() == old(Abs())
        invariant FindUnused(table.procs, 0) == FindUnused(table.procs, i)
      {
        if table.procs[i].state == UNUSED {
          table.procs := table.procs[i := table.procs[i].(state := EMBRYO, pid := nextpid, rq := NIL)];
          nextpid := nextpid + 1;
          return i;
        }
      }
      return NIL;
    }

    /** copyproc, first part. */
    method CopyprocAlloc()
      requires Valid() && Inv(Abs()) && Enabled(Abs(), ForkAlloc)
      modifies this`nextpid, this`np, table
      ensures Valid() && Abs() == Step(old(Abs()), ForkAlloc)
    {
      hide QueuesExact, CurrentHeads, FamilyOk, PidsOk, WaitersOk, ForksOk, FixedOk, SlicesOk;
      hide RunQueue.ValidRing, RunQueue.ValidFifo, RunQueue.Contents;
      var p := AllocProc();
      if p != NIL {
        np := np[curproc := p];
      }
    }

    /** copyproc, once the kernel stack is there. */
    method CopyprocAdopt()
      requires Valid() && Inv(Abs()) && Enabled(Abs(), ForkParent)
      modifies table
      ensures Valid() && Abs() == Step(old(Abs()), ForkParent)
    {
      hide QueuesExact, CurrentHeads, FamilyOk, PidsOk, WaitersOk, ForksOk, FixedOk, SlicesOk;
      hide RunQueue.ValidRing, RunQueue.ValidFifo, RunQueue.Contents;
      ForkingChild(Abs());
      table.procs := table.procs[np[curproc] := table.procs[np[curproc]].(parent := curproc)];
    }

    /** copyproc, when memory runs out. */
    method CopyprocFail()
      requires Valid() && Inv(Abs()) && Enabled(Abs(), ForkFail)
      modifies this`np, table
      ensures Valid() && Abs() == Step(old(Abs()), ForkFail)
    {
      hide QueuesExact, CurrentHeads, FamilyOk, PidsOk, WaitersOk, ForksOk, FixedOk, SlicesOk;
      hide RunQueue.ValidRing, RunQueue.ValidFifo, RunQueue.Contents;
      ForkingChild(Abs());
      table.procs := table.procs[np[curproc] := table.procs[np[curproc]].(state := UNUSED, parent := NIL)];
      np := np[curproc := NIL];
    }

    /** The end of sys_fork; enqueue_proc finds a free node. */
    method ForkFinishes() returns (pid: int)
      requires Valid() && Inv(Abs()) && Enabled(Abs(), ForkFinish)
      modifies this`np, table, rq, rq2, rq3
      ensures Valid()
      ensures !Panics(old(Abs()), ForkFinish) && Abs() == Step(old(Abs()), ForkFinish)
      ensures pid == old(table.procs)[old(np)[curproc]].pid
    {
      hide QueuesExact, CurrentHeads, FamilyOk, PidsOk, WaitersOk, ForksOk, FixedOk, SlicesOk;
      hide RunQueue.ValidRing, RunQueue.ValidFifo, RunQueue.Contents;
      ForkingChild(Abs());
      PanicsExactly(Abs(), ForkFinish);
      var c := np[curproc];
      pid := table.procs[c].pid;
      table.procs := table.procs[c := table.procs[c].(state := RUNNABLE)];
      Enqueue(c, 0);
      np := np[curproc := NIL];
    }

    /** sleep, up to its context switch. */
    method SleepOn(chan: Chan) returns (panicked: bool)
      requires Valid() && Inv(Abs()) && curproc != IDLE
      modifies this`curproc, table, rq, rq2, rq3
      ensures Valid() && panicked == LeavesStuck(old(Abs()))
      ensures var s := old(Abs());
        0 <= s.procs[s.cur].rq < LEVELS && s.q[s.procs[s.cur].rq] != [] && Abs() == Slept(s, chan)
    {
      hide QueuesExact, CurrentHeads, FamilyOk, PidsOk, WaitersOk, ForksOk, FixedOk, SlicesOk, Dispatch;
      hide RunQueue.ValidRing, RunQueue.ValidFifo, RunQueue.Contents;
      CurrentQueued(Abs());
      table.procs := table.procs[curproc := table.procs[curproc].(chan := chan, state := SLEEPING)];
      panicked := Schedule();
    }

    /** wakeup1: every process asleep on chan joins the top level, in table order. */
    method Wakeup1(chan: Chan)
      requires Valid() && Shape(Abs()) && |Abs().q[0]| + |Sleepers(table.procs, chan, NPROC)| <= NPROC
      modifies table, rq, rq2, rq3
      ensures Valid() && Abs() == Woken(old(Abs()), chan, NPROC)
    {
      hide RunQueue.ValidRing, RunQueue.ValidFifo, RunQueue.Contents;
      ghost var s := Abs();
      WokenNone(s, chan);
      for i := 0 to NPROC
        invariant Valid() && Abs() == Woken(s, chan, i)
      {
        WokenOne(s, chan, i);
        if table.procs[i].state == SLEEPING && table.procs[i].chan == chan {
          SleepersGrow(s.procs, chan, i + 1, NPROC);
          table.procs := table.procs[i := table.procs[i].(state := RUNNABLE)];
          Enqueue(i, 0);
        }
      }
    }

    /** wakeup: wakeup1 under the lock of the table; it never panics. */
    method Wakeup(b: int)
      requires Valid() && Inv(Abs())
      modifies table, rq, rq2, rq3
      ensures Valid()
      ensures !Panics(old(Abs()), Event.Wakeup(b)) && Abs() == Step(old(Abs()), Event.Wakeup(b))
    {
      hide QueuesExact, CurrentHeads, FamilyOk, PidsOk, WaitersOk, ForksOk, FixedOk, SlicesOk, Woken, Sleepers;
      hide RunQueue.ValidRing, RunQueue.ValidFifo, RunQueue.Contents;
      RoomToWake(Abs(), Address(b));
      Wakeup1(Address(b));
    }

    /** The tidy-up at the end of sleep. */
    method Tidy()
      requires Valid() && Inv(Abs()) && Enabled(Abs(), Resume)
      modifies table
      ensures Valid()
      ensures !Panics(old(Abs()), Resume) && Abs() == Step(old(Abs()), Resume)
    {
      hide QueuesExact, CurrentHeads, FamilyOk, PidsOk, WaitersOk, ForksOk, FixedOk, SlicesOk;
      hide RunQueue.ValidRing, RunQueue.ValidFifo, RunQueue.Contents;
      table.procs := table.procs[curproc := table.procs[curproc].(chan := NoChan)];
    }

    /** kill; a target that is asleep is made runnable and enqueue_proc panics for want of the lock. */
    method KillPid(pid: int) returns (r: int, panicked: bool)
      requires Valid() && Inv(Abs()) && Enabled(Abs(), Kill(pid))
      modifies table
      ensures Valid() && panicked == Panics(old(Abs()), Kill(pid))
      ensures !panicked ==> Abs() == Step(old(Abs()), Kill(pid))
      ensures r == 0 <==> exists p :: 0 <= p < NPROC && old(table.procs)[p].pid == pid
    {
      hide QueuesExact, CurrentHeads, FamilyOk, PidsOk, WaitersOk, ForksOk, FixedOk, SlicesOk;
      hide RunQueue.ValidRing, RunQueue.ValidFifo, RunQueue.Contents;
      for i := 0 to NPROC
        invariant Valid() && table.procs == old(table.procs) && Abs() == old(Abs())
        invariant FindPid(table.procs, pid, 0) == FindPid(table.procs, pid, i)
      {
        if table.procs[i].pid == pid {
          table.procs := table.procs[i := table.procs[i].(killed := true)];
          if table.procs[i].state == SLEEPING {
            table.procs := table.procs[i := table.procs[i].(state := RUNNABLE)];
            return 0, true;
          }
          return 0, false;
        }
      }
      return -1, false;
    }

    /** One scan of wait: reap a zombie child and return its pid, or give up with -1, or sleep (result 0). */
    method WaitScan() returns (pid: int, panicked: bool)
      requires Valid() && Inv(Abs()) && Enabled(Abs(), Wait)
      modifies this`curproc, table, rq, rq2, rq3
      ensures Valid() && panicked == Panics(old(Abs()), Wait)
      ensures !panicked ==> Abs() == Step(old(Abs()), Wait)
      ensures var c := FindZombie(old(table.procs), old(curproc), 0);
        pid == if c != NIL then old(table.procs)[c].pid
               else if !HasKids(old(table.procs), old(curproc)) || old(table.procs)[old(curproc)].killed then -1 else 0
    {
      hide QueuesExact, CurrentHeads, FamilyOk, PidsOk, WaitersOk, ForksOk, FixedOk, SlicesOk, Slept, LeavesStuck;
      hide RunQueue.ValidRing, RunQueue.ValidFifo, RunQueue.Contents;
      var havekids := false;
      for i := 0 to NPROC
        invariant Valid() && table.procs == old(table.procs) && curproc == old(curproc) && Abs() == old(Abs())
        invariant FindZombie(table.procs, curproc, 0) == FindZombie(table.procs, curproc, i)
        invariant havekids <==> exists j :: 0 <= j < i && ChildOf(table.procs[j], curproc)
      {
        if table.procs[i].state != UNUSED {
          if table.procs[i].parent == curproc {
            if table.procs[i].state == ZOMBIE {
              pid := table.procs[i].pid;
              table.procs := table.procs[i := table.procs[i].(state := UNUSED, pid := 0, parent := NIL)];
              return pid, false;
            }
            havekids := true;
            assert ChildOf(table.procs[i], curproc);
          }
        }
      }
      if !havekids || table.procs[curproc].killed {
        return -1, false;
      }
      panicked := SleepOn(OfProc(curproc));
      return 0, panicked;
    }

    /** exit, once the files are closed, of a user process or of a killed idle process. */
    method ExitProc() returns (panicked: bool)
      requires Valid() && Inv(Abs()) && Enabled(Abs(), Exit)
      modifies this`curproc, table, rq, rq2, rq3
      ensures Valid() && panicked == Panics(old(Abs()), Exit)
      ensures !panicked ==> Abs() == Step(old(Abs()), Exit)
    {
      hide QueuesExact, CurrentHeads, FamilyOk, PidsOk, WaitersOk, ForksOk, FixedOk, SlicesOk, Dispatch, Woken,
        Reparented;
      hide RunQueue.ValidRing, RunQueue.ValidFifo, RunQueue.Contents;
      if curproc == INIT {
        return true;
      }
      ghost var s := Abs();
      RoomToWake(s, OfProc(s.procs[s.cur].parent));
      WokenKeeps(s, OfProc(s.procs[s.cur].parent), NPROC);
      Wakeup1(OfProc(table.procs[curproc].parent));
      PassChildren();
      if s.cur == IDLE {
        IdleOrphaned(s);
      } else {
        OrphanedKeeps(s);
        CurrentQueued(Abs());
      }
      table.procs := table.procs[curproc := table.procs[curproc].(killed := false, state := ZOMBIE)];
      panicked := Schedule();
    }

    /** The loop of exit that passes abandoned children to init. */
    method PassChildren()
      requires Valid() && Inv(Abs())
      modifies table, rq, rq2, rq3
      ensures Valid() && Abs() == Reparented(old(Abs()), NPROC)
    {
      hide QueuesExact, CurrentHeads, FamilyOk, PidsOk, WaitersOk, ForksOk, FixedOk, SlicesOk, Woken, Reparented;
      hide RunQueue.ValidRing, RunQueue.ValidFifo, RunQueue.Contents;
      ghost var s := Abs();
      ReparentedNone(s);
      for i := 0 to NPROC
        invariant Valid() && Abs() == Reparented(s, i)
      {
        ReparentedOne(s, i);
        ReparentedQueues(s, i);
        if table.procs[i].parent == curproc {
          table.procs := table.procs[i := table.procs[i].(parent := INIT)];
          if table.procs[i].state == ZOMBIE {
            RoomToWake(Abs(), OfProc(INIT));
            Wakeup1(OfProc(INIT));
          }
        }
      }
    }

    /** userinit and runIdle, from the state that pinit leaves. */
    method BootUp()
      requires Valid()
        && Abs() == Kernel(seq(NPROC, i => Proc(UNUSED, 0, NIL, NoChan, false, 0, NIL)), [[], [], []], NIL,
        seq(NPROC, i => NIL), 1)
      modifies this, table, rq, rq2, rq3
      ensures Valid() && Abs() == Boot()
    {
      hide RunQueue.ValidRing, RunQueue.ValidFifo, RunQueue.Contents;
      var p := AllocProc();
      assert p == INIT by {
        assert table.procs[0].state == EMBRYO;
      }
      table.procs := table.procs[p := table.procs[p].(state := RUNNABLE)];
      Enqueue(p, 0);
      assert Abs().q[0] == [] + [INIT] == [INIT];
      for i := 0 to NCPU
        invariant Valid() && nextpid == 2 + i && |table.procs| == NPROC
        invariant Abs().q == [[INIT], [], []] && np == seq(NPROC, i => NIL)
        invariant forall j {:trigger table.procs[j]} :: 0 <= j < NPROC ==>
          table.procs[j] == if j == IDLE && IDLE <= i then BootProc(j).(state := RUNNABLE)
            else if j <= i then BootProc(j) else BootProc(NPROC - 1)
      {
        ghost var was := table.procs;
        p := AllocProc();
        assert was[i + 1].state == UNUSED;
        assert p == i + 1;
        table.procs := table.procs[p := table.procs[p].(state := RUNNABLE)];
      }
      curproc := IDLE;
      table.procs := table.procs[IDLE := table.procs[IDLE].(state := RUNNING)];
      assert table.procs == Boot().procs;
    }
  }

  lemma DropShape(s: Kernel, level: int)
    requires Shape(s) && 0 <= level < LEVELS && s.q[level] != []
    ensures Shape(DropHead(s, level))
  {
  }

  lemma PickInRange(s: Kernel)
    requires Shape(s)
    ensures 0 <= Pick(s.q) < NPROC
  {
  }

  lemma RotatedShape(s: Kernel)
    requires Shape(s)
    ensures Shape(s.(q := s.q[0 := Rotated(s.q[0])]))
  {
  }

  lemma DemoteShape(s: Kernel)
    requires Shape(s) && 0 <= s.procs[s.cur].rq < 2 && s.q[s.procs[s.cur].rq] != []
    ensures Shape(Enter(DropHead(s, s.procs[s.cur].rq), s.cur, s.procs[s.cur].rq + 1))
  {
  }

  /** What yield_proc_MLFQ makes of the three levels, when the lists survive it. */
  function Yielded(q: seq<seq<int>>): (r: seq<seq<int>>)
    requires |q| == LEVELS
  {
    if q[0] != [] then q[0 := Rotated(q[0])] else if q[1] != [] then q[1 := Rotated(q[1])] else q
  }

  lemma TakenFacts(s: Kernel, l: int)
    requires Shape(s) && QueuesExact(s) && 0 <= l < LEVELS
    ensures |Kept(s.q[l])| + |Moved(s.q[l])| <= NPROC
    ensures forall p {:trigger p in Moved(s.q[l])} :: p in Moved(s.q[l]) ==> 0 <= p < NPROC && s.procs[p].rq == l
  {
    Pigeonhole(s.q[l], NPROC);
    SplitConserves(s.q[l]);
    assert forall p {:trigger p in Moved(s.q[l])} :: p in Moved(s.q[l]) ==> p in s.q[l];
  }

  /** The balanced queues of an idle CPU, rotated by yield, are those of the specification. */
  lemma IdleSteps(s: Kernel)
    requires Inv(s) && s.cur == IDLE && Enabled(s, Tick) && !Panics(s, Tick)
    ensures var t := s.(q := [Shuffled(s.q[0]), Shuffled(s.q[1]), Shuffled(s.q[2])]);
      && Shape(t) && t.q[1] == [] && t.q[2] == [] && Shape(IdleYielded(s)) && Step(s, Tick) == Dispatch(IdleYielded(s))
      && t.(procs := t.procs[t.cur := t.procs[t.cur].(state := RUNNABLE)], q := t.q[0 := Rotated(t.q[0])]) ==
         IdleYielded(s)
  {
    hide QueuesExact, FamilyOk, PidsOk, WaitersOk, ForksOk, FixedOk, SlicesOk, Dispatch, Shuffled, Rotated, InRange;
    NoneShuffled();
    IdleYieldedQueues(s);
    ShuffledShape(s);
  }

  lemma NoneShuffled()
    ensures Shuffled([]) == []
  {
  }

  lemma ShuffledShape(s: Kernel)
    requires Shape(s) && QueuesExact(s) && s.q[1] == [] && s.q[2] == []
    ensures Shape(s.(q := [Shuffled(s.q[0]), [], []])) && [Shuffled(s.q[0]), [], []] == s.q[0 := Shuffled(s.q[0])]
  {
    ShuffledSame(s.q[0]);
  }

  /** exit of the idle process wakes nobody and hands nobody over. */
  lemma IdleOrphaned(s: Kernel)
    requires Inv(s) && s.cur == IDLE
    ensures Orphaned(s) == s
  {
    hide QueuesExact, CurrentHeads, PidsOk, ForksOk, SlicesOk;
    var chan := OfProc(s.procs[s.cur].parent);
    SleepersOfProc(s, NIL);
    var t := Woken(s, chan, NPROC);
    assert forall p {:trigger s.procs[p]} :: 0 <= p < NPROC ==> !Asleep(s.procs[p], chan) && s.procs[p].parent != IDLE;
    assert t.procs == s.procs;
    assert s.q[0] + [] == s.q[0];
    assert HandedOver(t, NPROC).procs == t.procs;
  }

  lemma RoomBelow(s: Kernel)
    requires Shape(s) && QueuesExact(s) && 0 <= s.procs[s.cur].rq < 2
    ensures |s.q[s.procs[s.cur].rq + 1]| < NPROC
  {
    assert s.cur !in s.q[s.procs[s.cur].rq + 1];
    RoomToEnter(s, s.cur, s.procs[s.cur].rq + 1);
  }

  lemma WokenNone(s: Kernel, chan: Chan)
    requires Shape(s)
    ensures Woken(s, chan, 0) == s
  {
    assert Woken(s, chan, 0).procs == s.procs;
    assert s.q[0] + [] == s.q[0];
  }

  lemma WokenOne(s: Kernel, chan: Chan, i: nat)
    requires Shape(s) && i < NPROC
    ensures Woken(s, chan, i).procs[i] == s.procs[i]
    ensures var t := Woken(s, chan, i);
      Woken(s, chan, i + 1) == if Asleep(s.procs[i], chan) then
        Enter(WithProc(t, i, t.procs[i].(state := RUNNABLE)), i, 0) else t
  {
    var t, u := Woken(s, chan, i), Woken(s, chan, i + 1);
    if Asleep(s.procs[i], chan) {
      var v := Enter(WithProc(t, i, t.procs[i].(state := RUNNABLE)), i, 0);
      assert u.procs == v.procs;
      assert s.q[0] + (Sleepers(s.procs, chan, i) + [i]) == s.q[0] + Sleepers(s.procs, chan, i) + [i];
    } else {
      assert u.procs == t.procs;
      assert Sleepers(s.procs, chan, i) + [] == Sleepers(s.procs, chan, i);
    }
  }

  lemma SleepersGrow(procs: seq<Proc>, chan: Chan, m: nat, n: nat)
    requires m <= n <= |procs|
    ensures |Sleepers(procs, chan, m)| <= |Sleepers(procs, chan, n)|
  {
  }

  // ---------------------------------------------------------------- exit's loop, one slot at a time

  lemma ReparentedNone(s: Kernel)
    requires Shape(s)
    ensures Reparented(s, 0) == s
  {
    assert HandedOver(s, 0).procs == s.procs;
  }

  lemma MovedOne(s: Kernel, i: nat)
    requires Shape(s) && i < NPROC
    ensures HandedOver(s, i).procs[i] == s.procs[i]
    ensures HandedOver(s, i + 1) == if s.procs[i].parent == s.cur then
      WithProc(HandedOver(s, i), i, s.procs[i].(parent := INIT)) else HandedOver(s, i)
  {
    var t, u := HandedOver(s, i), HandedOver(s, i + 1);
    if s.procs[i].parent == s.cur {
      assert u.procs == WithProc(t, i, s.procs[i].(parent := INIT)).procs;
    } else {
      assert u.procs == t.procs;
    }
  }

  /** Waking twice on the same channel wakes nobody the second time. */
  lemma WokenTwice(s: Kernel, chan: Chan)
    requires Shape(s)
    ensures Woken(Woken(s, chan, NPROC), chan, NPROC) == Woken(s, chan, NPROC)
  {
    var t := Woken(s, chan, NPROC);
    NoSleepers(t.procs, chan, NPROC);
    var u := Woken(t, chan, NPROC);
    assert u.procs == t.procs;
    assert t.q[0] + [] == t.q[0];
  }

  lemma NoSleepers(procs: seq<Proc>, chan: Chan, n: nat)
    requires n <= |procs| && forall i :: 0 <= i < n ==> !Asleep(procs[i], chan)
    ensures Sleepers(procs, chan, n) == []
  {
  }

  /** Changing a parent and waking commute. */
  lemma WokenWithParent(s: Kernel, chan: Chan, i: int, parent: int)
    requires Shape(s) && 0 <= i < NPROC
    ensures var x := s.procs[i].(parent := parent);
      var t := Woken(s, chan, NPROC);
      Woken(WithProc(s, i, x), chan, NPROC) == WithProc(t, i, t.procs[i].(parent := parent))
  {
    var x := s.procs[i].(parent := parent);
    SleepersSame(s.procs, s.procs[i := x], chan, NPROC);
    var t, u := Woken(s, chan, NPROC), Woken(WithProc(s, i, x), chan, NPROC);
    assert u.procs == t.procs[i := t.procs[i].(parent := parent)];
  }

  lemma ReparentedOne(s: Kernel, i: nat)
    requires Shape(s) && i < NPROC
    ensures var t := Reparented(s, i);
      && |t.procs| == NPROC && t.cur == s.cur && |t.q| == LEVELS
      && t.procs[i].parent == s.procs[i].parent && (t.procs[i].state == ZOMBIE <==> s.procs[i].state == ZOMBIE)
      && Reparented(s, i + 1) ==
           if t.procs[i].parent != t.cur then t
           else
             var u := WithProc(t, i, t.procs[i].(parent := INIT));
             if u.procs[i].state == ZOMBIE then Woken(u, OfProc(INIT), NPROC) else u
  {
    var m := HandedOver(s, i);
    MovedOne(s, i);
    if exists j :: 0 <= j < i && ZombieOf(s.procs[j], s.cur) {
      WokenTwice(HandedOver(s, i + 1), OfProc(INIT));
      WokenWithParent(m, OfProc(INIT), i, INIT);
    }
  }

  lemma MovedQueues(s: Kernel, n: nat)
    requires Shape(s) && QueuesExact(s) && CurrentHeads(s) && FixedOk(s) && n <= NPROC
    ensures Shape(HandedOver(s, n)) && QueuesExact(HandedOver(s, n)) && FixedOk(HandedOver(s, n))
  {
    var t := HandedOver(s, n);
    QueuesStand(s, t);
    assert forall p {:trigger t.np[p]} :: 0 <= p < NPROC ==> t.np[p] == s.np[p];
  }

  lemma ReparentedQueues(s: Kernel, n: nat)
    requires Inv(s) && n < NPROC
    ensures var t := Reparented(s, n);
      && Shape(t) && QueuesExact(t) && FixedOk(t)
      && (t.procs[n].parent == s.cur ==>
           var u := WithProc(t, n, t.procs[n].(parent := INIT)); Shape(u) && QueuesExact(u) && FixedOk(u))
  {
    hide QueuesExact, CurrentHeads, FamilyOk, PidsOk, WaitersOk, ForksOk, FixedOk, SlicesOk, Woken;
    MovedQueues(s, n);
    var m := HandedOver(s, n);
    WokenQueues(m, OfProc(INIT), NPROC);
    WokenFixed(m, OfProc(INIT));
    ParentQueues(Reparented(s, n), n);
  }

  lemma WokenFixed(s: Kernel, chan: Chan)
    requires Shape(s) && FixedOk(s) && Shape(Woken(s, chan, NPROC))
    ensures FixedOk(Woken(s, chan, NPROC))
  {
  }

  lemma ParentQueues(s: Kernel, n: int)
    requires Shape(s) && QueuesExact(s) && FixedOk(s) && 0 <= n < NPROC
    ensures var u := WithProc(s, n, s.procs[n].(parent := INIT));
      Shape(u) && QueuesExact(u) && (s.procs[n].parent != NIL ==> FixedOk(u))
  {
  }
}
