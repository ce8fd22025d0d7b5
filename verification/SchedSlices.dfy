/** Sleeping does not refresh the time slice of the top level (sched_MLFQ.c, sched_RR.c, proc.c). */
module SchedSlices {
  import opened ProcTable
  import opened SchedSpec
  import opened SchedProofs
  import opened SchedRuns
  import opened SchedLevels

  /** p is alive on the top level with n ticks left. */
  ghost predicate HasLeft(s: Kernel, p: int, n: int) {
    0 <= p < |s.procs| && !IsIdle(p) && Alive(s.procs[p]) && s.procs[p].rq == 0 && s.procs[p].timeslice == n
  }

  lemma SteadyLeft(s: Kernel, t: Kernel, p: int, n: int)
    requires HasLeft(s, p, n) && SteadyAt(s, t, p)
    ensures HasLeft(t, p, n)
  {
  }

  /** Falling asleep: the process is taken off its queue with the slice it has. */
  lemma StopLeft(s: Kernel, x: Proc, n: int)
    requires Shape(s) && QueuesExact(s) && CurrentHeads(s) && s.cur != IDLE && HasLeft(s, s.cur, n)
    requires x == s.procs[s.cur].(chan := x.chan, state := SLEEPING)
    ensures 0 <= s.procs[s.cur].rq < LEVELS && s.q[s.procs[s.cur].rq] != [] && HasLeft(Block(s, x), s.cur, n)
  {
    hide QueuesExact, Dispatch;
    CurrentQueued(s);
    DropKeeps(s, s.cur, x);
    DispatchSteady(DropHead(WithProc(s, s.cur, x), s.procs[s.cur].rq), s.cur);
  }

  /** Waking up: the process enters the queue it was last on, so its slice stays. */
  lemma WokenLeft(s: Kernel, chan: Chan, p: int, n: int)
    requires |s.q| == LEVELS && |s.procs| == NPROC && HasLeft(s, p, n)
    ensures HasLeft(Woken(s, chan, NPROC), p, n)
  {
  }

  lemma OrphanedLeft(s: Kernel, p: int, n: int)
    requires |s.procs| == NPROC && |s.q| == LEVELS && 0 <= s.cur < NPROC && HasLeft(s, p, n)
    ensures HasLeft(Orphaned(s), p, n)
  {
    hide Woken;
    WokenLeft(s, OfProc(s.procs[s.cur].parent), p, n);
    var t := Woken(s, OfProc(s.procs[s.cur].parent), NPROC);
    WokenShape(s, OfProc(s.procs[s.cur].parent));
    assert HasLeft(HandedOver(t, NPROC), p, n);
    WokenLeft(HandedOver(t, NPROC), OfProc(INIT), p, n);
  }

  lemma WokenShape(s: Kernel, chan: Chan)
    requires |s.q| == LEVELS && |s.procs| == NPROC
    ensures |Woken(s, chan, NPROC).q| == LEVELS && |Woken(s, chan, NPROC).procs| == NPROC
      && Woken(s, chan, NPROC).cur == s.cur
  {
  }

  lemma ExitLeft(s: Kernel, p: int, n: int)
    requires Inv(s) && s.cur != IDLE && s.cur != INIT && s.np[s.cur] == NIL && HasLeft(s, p, n) && p != s.cur
    ensures var t := Orphaned(s);
      Shape(t) && 0 <= t.procs[t.cur].rq < LEVELS && t.q[t.procs[t.cur].rq] != [] && HasLeft(Zombie(t), p, n)
  {
    hide QueuesExact, CurrentHeads, FamilyOk, PidsOk, WaitersOk, ForksOk, FixedOk, SlicesOk, Block, Orphaned, HasLeft,
      SteadyAt;
    OrphanedKeeps(s);
    var t := Orphaned(s);
    OrphanedLeft(s, p, n);
    OrphanedCur(s);
    CurrentQueued(t);
    LeftBounds(t, p, n);
    BlockSteady(t, t.procs[t.cur].(killed := false, state := ZOMBIE), p);
    SteadyLeft(t, Zombie(t), p, n);
  }

  lemma OrphanedCur(s: Kernel)
    requires |s.procs| == NPROC && |s.q| == LEVELS && 0 <= s.cur < NPROC
    ensures Orphaned(s).cur == s.cur
  {
  }

  lemma LeftBounds(s: Kernel, p: int, n: int)
    requires HasLeft(s, p, n) && |s.procs| == NPROC
    ensures 0 <= p < NPROC && !IsIdle(p)
  {
  }

  /** Only a tick it receives takes from the slice, whether the process runs, waits for the CPU or sleeps. */
  lemma SliceStep(s: Kernel, e: Event, p: int, n: int)
    requires Inv(s) && Enabled(s, e) && !Panics(s, e) && HasLeft(s, p, n) && !(e.Exit? && s.cur == p)
    ensures !(e.Tick? && s.cur == p) ==> HasLeft(Step(s, e), p, n)
    ensures e.Tick? && s.cur == p && 1 < n ==> HasLeft(Step(s, e), p, n - 1)
  {
    hide QueuesExact, CurrentHeads, FamilyOk, PidsOk, WaitersOk, ForksOk, FixedOk, SlicesOk;
    hide TickIdle, Orphaned, Zombie, Block, Woken, Demoted, LeavesStuck, IdleGone;
    match e
    case Tick =>
      if s.cur == IDLE {
        TickIdleSteady(s, p);
      } else if s.cur != p {
        TickSteady(s, p);
      }
    case ForkAlloc =>
    case ForkParent => ForkingChild(s);
    case ForkFail => ForkingChild(s);
    case ForkFinish => ForkingChild(s);
    case Sleep(a) => SleepLeft(s, Address(a), p, n);
    case Wakeup(b) => WokenLeft(s, Address(b), p, n);
    case Resume =>
    case Exit => if s.cur == IDLE { IdleGoneSteady(s, p); } else { ExitLeft(s, p, n); }
    case Wait =>
      if FindZombie(s.procs, s.cur, 0) == NIL && HasKids(s.procs, s.cur) && !s.procs[s.cur].killed {
        SleepLeft(s, OfProc(s.cur), p, n);
      }
    case Kill(pid) =>
  }

  lemma SleepLeft(s: Kernel, chan: Chan, p: int, n: int)
    requires Shape(s) && QueuesExact(s) && CurrentHeads(s) && s.cur != IDLE && HasLeft(s, p, n)
    ensures 0 <= s.procs[s.cur].rq < LEVELS && s.q[s.procs[s.cur].rq] != [] && HasLeft(Slept(s, chan), p, n)
  {
    hide Block, QueuesExact, CurrentHeads;
    var x := s.procs[s.cur].(chan := chan, state := SLEEPING);
    if p == s.cur {
      StopLeft(s, x, n);
    } else {
      BlockSteady(s, x, p);
    }
  }

  // ---------------------------------------------------------------- over whole runs

  ghost predicate NeverExits(es: seq<Event>, k: nat, p: int)
    requires k <= |es| && Possible(es)
    decreases |es|
  {
    |es| == k || (var before := es[..|es| - 1];
      NeverExits(before, k, p) && !(es[|es| - 1].Exit? && StateAfter(before).cur == p))
  }

  /**
   However often it sleeps and wakes up meanwhile, a process on the top level has used up exactly the
   ticks it received: its slice is not refreshed.
   */
  lemma {:induction false} SleepGivesNoSlice(es: seq<Event>, k: nat, p: int, n: int)
    requires Possible(es) && k <= |es| && Possible(es[..k]) && NeverExits(es, k, p)
    requires HasLeft(StateAfter(es[..k]), p, n) && Received(es, k, p) < n
    ensures HasLeft(StateAfter(es), p, n - Received(es, k, p))
    decreases |es|
  {
    hide Inv, Enabled, Panics, HasLeft, Step;
    if |es| == k {
      assert es[..k] == es;
    } else {
      var before, e := es[..|es| - 1], es[|es| - 1];
      assert before[..k] == es[..k];
      SleepGivesNoSlice(before, k, p, n);
      SliceStep(StateAfter(before), e, p, n - Received(before, k, p));
    }
  }
}
