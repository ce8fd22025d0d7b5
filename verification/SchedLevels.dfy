/** How long a process stays on each level of the feedback queue. */
module SchedLevels {
  import opened ProcTable
  import opened NodePool
  import opened BalanceSpec
  import opened SchedSpec
  import opened SchedProofs
  import opened SchedRuns

  /** The level of a process that has received t ticks since it was forked, without sleeping. */
  function LevelAfter(t: nat): (level: int) {
    if t < MaxSlices(0) then 0 else if t < MaxSlices(0) + MaxSlices(1) then 1 else 2
  }

  /** The ticks it then has left on that level. */
  function LeftAfter(t: nat): int {
    if t < MaxSlices(0) then MaxSlices(0) - t else MaxSlices(0) + MaxSlices(1) - t
  }

  ghost predicate OnSchedule(x: Proc, t: nat) {
    x.rq == LevelAfter(t) && (x.rq < 2 ==> x.timeslice == LeftAfter(t))
  }

  /** The event takes p off the run queues. */
  ghost predicate Stops(s: Kernel, e: Event, p: int)
    requires Shape(s)
  {
    s.cur == p && (e.Sleep? || e.Exit?
      || (e.Wait? && FindZombie(s.procs, p, 0) == NIL && HasKids(s.procs, p) && !s.procs[p].killed))
  }

  /** Same place in the schedule. */
  predicate Steady(x: Proc, y: Proc) {
    y.rq == x.rq && y.timeslice == x.timeslice
      && (y.state == x.state || (x.state == RUNNABLE && y.state == RUNNING)
      || (x.state == RUNNING && y.state == RUNNABLE))
  }

  ghost predicate SteadyAt(s: Kernel, t: Kernel, p: int) {
    0 <= p < |s.procs| && p < |t.procs| && Steady(s.procs[p], t.procs[p])
  }

  ghost predicate OnScheduleAt(s: Kernel, p: int, t: nat) {
    0 <= p < |s.procs| && Queued(s, p) && OnSchedule(s.procs[p], t)
  }

  lemma DispatchSteady(s: Kernel, p: int)
    requires Shape(s) && QueuesExact(s) && NobodyRuns(s) && 0 <= p < NPROC && !IsIdle(p)
    ensures SteadyAt(s, Dispatch(s), p)
  {
    PickQueued(s);
  }

  lemma BlockSteady(s: Kernel, x: Proc, p: int)
    requires Shape(s) && QueuesExact(s) && CurrentHeads(s) && s.cur != IDLE && 0 <= p < NPROC && !IsIdle(p)
      && p != s.cur
    requires x.state != RUNNABLE && x.state != RUNNING
    ensures 0 <= s.procs[s.cur].rq < LEVELS && s.q[s.procs[s.cur].rq] != [] && SteadyAt(s, Block(s, x), p)
  {
    hide QueuesExact, Dispatch;
    CurrentQueued(s);
    DropKeeps(s, s.cur, x);
    DispatchSteady(DropHead(WithProc(s, s.cur, x), s.procs[s.cur].rq), p);
  }

  lemma TickSteady(s: Kernel, p: int)
    requires Inv(s) && 0 <= p < NPROC && !IsIdle(p) && p != s.cur && s.cur != IDLE
    ensures 0 <= s.procs[s.cur].rq < LEVELS && s.q[s.procs[s.cur].rq] != []
    ensures SteadyAt(s, TickUser(s), p)
  {
    hide QueuesExact, CurrentHeads, FamilyOk, PidsOk, WaitersOk, ForksOk, FixedOk, SlicesOk, Dispatch, Demoted;
    CurrentQueued(s);
    if s.procs[s.cur].rq < 2 && s.procs[s.cur].timeslice == 1 {
      var u := DemotedFrom(s);
      DispatchSteady(u, p);
    }
  }

  /** A tick received uses up one slice, and the last one of a level moves the process one level down. */
  lemma TickAdvances(s: Kernel, k: nat)
    requires Inv(s) && s.cur != IDLE && OnSchedule(s.procs[s.cur], k)
    ensures 0 <= s.procs[s.cur].rq < LEVELS && s.q[s.procs[s.cur].rq] != []
    ensures OnScheduleAt(TickUser(s), s.cur, k + 1)
  {
    hide QueuesExact, CurrentHeads, FamilyOk, PidsOk, WaitersOk, ForksOk, FixedOk, SlicesOk, Dispatch, Demoted;
    CurrentQueued(s);
    if s.procs[s.cur].rq < 2 && s.procs[s.cur].timeslice == 1 {
      var u := DemotedFrom(s);
      DispatchSteady(u, s.cur);
    }
  }

  lemma TickIdleSteady(s: Kernel, p: int)
    requires Inv(s) && s.cur == IDLE && 0 <= p < NPROC && !IsIdle(p)
    ensures Shape(IdleYielded(s)) && SteadyAt(s, TickIdle(s), p)
  {
    hide QueuesExact, FamilyOk, PidsOk, WaitersOk, ForksOk, FixedOk, SlicesOk, Dispatch;
    IdleYieldedQueues(s);
    DispatchSteady(IdleYielded(s), p);
  }

  /** p is the head of the highest non-empty level, or the idle process when there is none. */
  predicate HeadOfAll(q: seq<seq<int>>, p: int) {
    |q| == LEVELS &&
      if q[0] != [] then p == q[0][0]
      else if q[1] != [] then p == q[1][0]
      else if q[2] != [] then p == q[2][0]
      else p == IDLE
  }

  /**
   A tick of a user process with its last slice on an upper level: it goes to the end of the next level, with the
   slice of that level, and the head of the highest level runs. Any other tick leaves queues and CPU as they are.
   */
  lemma UserTickOrder(s: Kernel)
    requires Inv(s) && Enabled(s, Tick) && !Panics(s, Tick) && s.cur != IDLE
    ensures var t, x := Step(s, Tick), s.procs[s.cur];
      if x.rq == 2 then t == s
      else if x.timeslice > 1 then t == s.(procs := s.procs[s.cur := x.(timeslice := x.timeslice - 1)])
      else
        && |t.procs| == NPROC && |t.q| == LEVELS && t.np == s.np && t.nextpid == s.nextpid && 0 <= x.rq < 2
        && HeadOfAll(t.q, t.cur) && s.q[x.rq] == [s.cur] + t.q[x.rq] && t.q[x.rq + 1] == s.q[x.rq + 1] + [s.cur]
        && (forall l {:trigger t.q[l]} :: 0 <= l < LEVELS && l != x.rq && l != x.rq + 1 ==> t.q[l] == s.q[l])
        && (forall p {:trigger t.procs[p]} :: 0 <= p < NPROC && p != s.cur ==>
             t.procs[p] == if p == t.cur then s.procs[p].(state := RUNNING) else s.procs[p])
        && t.procs[s.cur] == x.(rq := x.rq + 1, timeslice := if x.rq == 0 then 500 else 0,
          state := if t.cur == s.cur then RUNNING else RUNNABLE)
  {
    hide QueuesExact, CurrentHeads, FamilyOk, PidsOk, WaitersOk, ForksOk, FixedOk;
    CurrentQueued(s);
    if s.procs[s.cur].rq < 2 && s.procs[s.cur].timeslice == 1 {
      var u := DemotedFrom(s);
    }
  }

  /**
   A tick of the idle process with n others queued: half of the queue, rounded down, changes places with what is
   behind it, the head goes to the end, and the new head runs. The first in the queue runs only if it is alone.
   */
  lemma IdleTickOrder(s: Kernel)
    requires Inv(s) && Enabled(s, Tick) && !Panics(s, Tick) && s.cur == IDLE
    ensures var t, l, n := Step(s, Tick), s.q[0], |s.q[0]|;
      && |t.procs| == NPROC && |t.q| == LEVELS && t.np == s.np && t.nextpid == s.nextpid && t.q[1] == [] && t.q[2] == []
      && t.q[0] == (if l == [] then [] else l[1 + n / 2..] + l[1..1 + n / 2] + [l[0]])
      && t.cur == (if n == 0 then IDLE else if n < 3 then l[n - 1] else l[1 + n / 2])
      && forall p {:trigger t.procs[p]} :: 0 <= p < NPROC ==> t.procs[p] == s.procs[p].(state :=
        if p == t.cur then RUNNING else if p == IDLE then RUNNABLE else s.procs[p].state)
  {
    hide QueuesExact, FamilyOk, PidsOk, WaitersOk, ForksOk, FixedOk, SlicesOk, Rotated, Shuffled;
    RotatedOrder(s.q[0]);
    if s.q[0] != [] {
      RotatedHead(s.q[0]);
    }
  }

  lemma RotatedOrder(l: seq<int>)
    ensures Rotated(Shuffled(l)) == if l == [] then [] else l[1 + |l| / 2..] + l[1..1 + |l| / 2] + [l[0]]
  {
  }

  lemma RotatedHead(l: seq<int>)
    requires l != []
    ensures var n := |l|; (l[1 + n / 2..] + l[1..1 + n / 2] + [l[0]])[0] == if n < 3 then l[n - 1] else l[1 + n / 2]
  {
  }

  lemma IdleGoneSteady(s: Kernel, p: int)
    requires Inv(s) && s.cur == IDLE && 0 <= p < NPROC && !IsIdle(p)
    ensures SteadyAt(s, IdleGone(s), p)
  {
    hide QueuesExact, CurrentHeads, FamilyOk, PidsOk, WaitersOk, ForksOk, FixedOk, SlicesOk, Dispatch;
    var t := WithProc(s, s.cur, s.procs[s.cur].(killed := false, state := ZOMBIE));
    GoneQueues(s, t);
    DispatchSteady(t, p);
  }

  lemma ExitSteady(s: Kernel, p: int)
    requires Inv(s) && s.cur != IDLE && s.cur != INIT && s.np[s.cur] == NIL && 0 <= p < NPROC && Queued(s, p)
      && p != s.cur
    ensures var t := Orphaned(s);
      Shape(t) && 0 <= t.procs[t.cur].rq < LEVELS && t.q[t.procs[t.cur].rq] != [] && SteadyAt(s, Zombie(t), p)
  {
    hide QueuesExact, CurrentHeads, FamilyOk, PidsOk, WaitersOk, ForksOk, FixedOk, SlicesOk, Block;
    OrphanedKeeps(s);
    var t := Orphaned(s);
    CurrentQueued(t);
    assert SteadyAt(s, t, p) && Queued(t, p);
    BlockSteady(t, t.procs[t.cur].(killed := false, state := ZOMBIE), p);
  }

  /** Only its own ticks move a process that keeps running or waiting for the CPU. */
  lemma StepSteady(s: Kernel, e: Event, p: int)
    requires Inv(s) && Enabled(s, e) && !Panics(s, e)
    requires 0 <= p < NPROC && Queued(s, p) && !Stops(s, e, p) && !(e.Tick? && s.cur == p)
    ensures SteadyAt(s, Step(s, e), p)
  {
    hide QueuesExact, CurrentHeads, FamilyOk, PidsOk, WaitersOk, ForksOk, FixedOk, SlicesOk;
    hide TickIdle, TickUser, Orphaned, Zombie, Block, LeavesStuck, IdleGone;
    match e
    case Tick => if s.cur == IDLE { TickIdleSteady(s, p); } else { TickSteady(s, p); }
    case ForkAlloc =>
    case ForkParent => ForkingChild(s);
    case ForkFail => ForkingChild(s);
    case ForkFinish => ForkingChild(s);
    case Sleep(a) => BlockSteady(s, s.procs[s.cur].(chan := Address(a), state := SLEEPING), p);
    case Wakeup(b) =>
    case Resume =>
    case Exit => if s.cur == IDLE { IdleGoneSteady(s, p); } else { ExitSteady(s, p); }
    case Wait =>
      if FindZombie(s.procs, s.cur, 0) == NIL && HasKids(s.procs, s.cur) && !s.procs[s.cur].killed {
        BlockSteady(s, s.procs[s.cur].(chan := OfProc(s.cur), state := SLEEPING), p);
      }
    case Kill(pid) =>
  }

  // ---------------------------------------------------------------- over whole runs

  /** The ticks that p received among the events after the first k. */
  ghost function Received(es: seq<Event>, k: nat, p: int): (t: nat)
    requires k <= |es| && Possible(es)
    decreases |es|
  {
    if |es| == k then 0
    else
      var before, e := es[..|es| - 1], es[|es| - 1];
      Received(before, k, p) + (if e.Tick? && StateAfter(before).cur == p then 1 else 0)
  }

  /** p never slept or exited in the events after the first k. */
  ghost predicate NeverStops(es: seq<Event>, k: nat, p: int)
    requires k <= |es| && Possible(es)
    decreases |es|
  {
    |es| == k || (var before := es[..|es| - 1]; NeverStops(before, k, p) && !Stops(StateAfter(before), es[|es| - 1], p))
  }

  /**
   From its fork on, and as long as it does not sleep, a process is on level 1 below 20 received ticks,
   on level 2 from 20 to 519 and on level 3 from 520 on, whatever the other processes do meanwhile.
   */
  lemma {:induction false} LevelFollowsTicks(es: seq<Event>, k: nat, p: int)
    requires Possible(es) && 0 < k <= |es| && es[k - 1].ForkFinish?
    requires Possible(es[..k - 1]) && p == StateAfter(es[..k - 1]).np[StateAfter(es[..k - 1]).cur]
    requires NeverStops(es, k, p)
    ensures OnScheduleAt(StateAfter(es), p, Received(es, k, p))
    decreases |es|
  {
    hide QueuesExact, CurrentHeads, FamilyOk, PidsOk, WaitersOk, ForksOk, FixedOk, SlicesOk, Enabled, Panics, Forked,
      TickUser;
    var before, e := es[..|es| - 1], es[|es| - 1];
    var s := StateAfter(before);
    if |es| == k {
      assert before == es[..k - 1];
      FreshChild(s);
    } else {
      assert before[..k - 1] == es[..k - 1];
      LevelFollowsTicks(before, k, p);
      if e.Tick? && s.cur == p {
        TickAdvances(s, Received(before, k, p));
      } else {
        StepSteady(s, e, p);
      }
    }
  }

  /** allocproc cleared rq, so the first enqueue gives a full slice. */
  lemma FreshChild(s: Kernel)
    requires Inv(s) && Enabled(s, ForkFinish)
    ensures OnScheduleAt(Forked(s), s.np[s.cur], 0)
  {
    hide QueuesExact, CurrentHeads, FamilyOk, PidsOk, WaitersOk, ForksOk, FixedOk, SlicesOk;
    ForkingChild(s);
  }
}
