/** Which runs end in a panic: the fate of a kernel whose idle process has been killed (proc.c, trap.c). */
module SchedPanics {
  import opened ProcTable
  import opened NodePool
  import BalanceSpec
  import opened SchedSpec
  import opened SchedProofs
  import opened SchedRuns

  /** The idle process of this CPU has been killed, or has exited because of that. */
  predicate Doomed(s: Kernel)
    requires IDLE < |s.procs|
  {
    s.procs[IDLE].killed || s.procs[IDLE].state == ZOMBIE
  }

  /** kill finds the slot of this CPU's idle process. */
  predicate KillsIdle(s: Kernel, e: Event) {
    e.Kill? && FindPid(s.procs, e.pid, 0) == IDLE
  }

  // ---------------------------------------------------------------- one step

  /** The idle slot is neither marked nor buried. */
  ghost predicate IdleSame(s: Kernel, t: Kernel) {
    && IDLE < |s.procs| && IDLE < |t.procs|
    && t.procs[IDLE].killed == s.procs[IDLE].killed
       && (t.procs[IDLE].state == ZOMBIE <==> s.procs[IDLE].state == ZOMBIE)
  }

  lemma DispatchIdle(s: Kernel)
    requires Shape(s) && !Stuck(s)
    ensures IdleSame(s, Dispatch(s))
  {
  }

  lemma BlockIdle(s: Kernel, x: Proc)
    requires Shape(s) && QueuesExact(s) && CurrentHeads(s) && s.cur != IDLE && !LeavesStuck(s)
    requires x.state != RUNNABLE && x.state != RUNNING
    ensures 0 <= s.procs[s.cur].rq < LEVELS && s.q[s.procs[s.cur].rq] != [] && IdleSame(s, Block(s, x))
  {
    hide QueuesExact, CurrentHeads, Dispatch;
    CurrentQueued(s);
    DropKeeps(s, s.cur, x);
    DispatchIdle(DropHead(WithProc(s, s.cur, x), s.procs[s.cur].rq));
  }

  lemma TickIdleSame(s: Kernel)
    requires Inv(s)
    ensures s.cur == IDLE ==> Shape(IdleYielded(s)) && IdleSame(s, TickIdle(s))
    ensures s.cur != IDLE ==>
      0 <= s.procs[s.cur].rq < LEVELS && s.q[s.procs[s.cur].rq] != [] && IdleSame(s, TickUser(s))
  {
    hide QueuesExact, FamilyOk, PidsOk, WaitersOk, ForksOk, SlicesOk, Dispatch;
    if s.cur == IDLE {
      IdleYieldedQueues(s);
      DispatchIdle(IdleYielded(s));
    } else {
      CurrentQueued(s);
      if s.procs[s.cur].rq < 2 && s.procs[s.cur].timeslice == 1 {
        var u := DemotedFrom(s);
        DispatchIdle(u);
      }
    }
  }

  lemma ExitIdle(s: Kernel)
    requires Inv(s) && s.cur != IDLE && s.cur != INIT && s.np[s.cur] == NIL && !LeavesStuck(Orphaned(s))
    ensures var t := Orphaned(s);
      Shape(t) && 0 <= t.procs[t.cur].rq < LEVELS && t.q[t.procs[t.cur].rq] != [] && IdleSame(s, Zombie(t))
  {
    hide QueuesExact, CurrentHeads, FamilyOk, PidsOk, WaitersOk, ForksOk, SlicesOk, Block, LeavesStuck;
    OrphanedKeeps(s);
    var t := Orphaned(s);
    assert IdleSame(s, t);
    BlockIdle(t, t.procs[t.cur].(killed := false, state := ZOMBIE));
  }

  /** A step dooms the kernel exactly when it kills the idle process; nothing undoes it. */
  lemma DoomedStep(s: Kernel, e: Event)
    requires Inv(s) && Enabled(s, e) && !Panics(s, e)
    ensures |Step(s, e).procs| == NPROC && (Doomed(Step(s, e)) <==> Doomed(s) || KillsIdle(s, e))
  {
    hide QueuesExact, CurrentHeads, FamilyOk, PidsOk, WaitersOk, ForksOk, SlicesOk;
    hide TickIdle, TickUser, Orphaned, Zombie, Block, LeavesStuck;
    StepKeeps(s, e);
    match e
    case Tick => TickIdleSame(s);
    case ForkAlloc =>
    case ForkParent => ForkingChild(s);
    case ForkFail => ForkingChild(s);
    case ForkFinish => ForkingChild(s);
    case Sleep(a) => BlockIdle(s, s.procs[s.cur].(chan := Address(a), state := SLEEPING));
    case Wakeup(b) =>
    case Resume =>
    case Exit => if s.cur != IDLE { ExitIdle(s); } else { GoneDoomed(s); }
    case Wait =>
      var c := FindZombie(s.procs, s.cur, 0);
      if c != NIL {
        assert s.procs[c].parent == s.cur;
      } else if HasKids(s.procs, s.cur) && !s.procs[s.cur].killed {
        BlockIdle(s, s.procs[s.cur].(chan := OfProc(s.cur), state := SLEEPING));
      }
    case Kill(pid) =>
  }

  lemma GoneDoomed(s: Kernel)
    requires Shape(s) && s.cur == IDLE && Pick(s.q) != IDLE
    ensures |IdleGone(s).procs| == NPROC && IdleGone(s).procs[IDLE].state == ZOMBIE
  {
  }

  // ---------------------------------------------------------------- runs

  /** Some kill of the run named the idle process of this CPU. */
  ghost predicate IdleKilled(es: seq<Event>)
    requires Possible(es)
    decreases |es|
  {
    es != [] && (var before := es[..|es| - 1]; IdleKilled(before) || KillsIdle(StateAfter(before), es[|es| - 1]))
  }

  lemma {:induction false} DoomedRun(es: seq<Event>)
    requires Possible(es)
    ensures Doomed(StateAfter(es)) <==> IdleKilled(es)
    decreases |es|
  {
    if es != [] {
      hide Inv, Enabled, Panics, Step, KillsIdle, Doomed;
      var before := es[..|es| - 1];
      ShapeOf(StateAfter(before));
      DoomedRun(before);
      DoomedStep(StateAfter(before), es[|es| - 1]);
    }
  }

  lemma ShapeOf(s: Kernel)
    requires Inv(s)
    ensures Shape(s)
  {
  }

  /** Without such a kill, the panics are the two that PanicsExactly names first. */
  lemma OtherPanics(es: seq<Event>, e: Event)
    requires Possible(es) && Enabled(StateAfter(es), e) && !IdleKilled(es)
    ensures var s := StateAfter(es);
      Panics(s, e) <==>
        || (e.Exit? && s.cur == INIT)
        || (e.Kill? && FindPid(s.procs, e.pid, 0) != NIL && s.procs[FindPid(s.procs, e.pid, 0)].state == SLEEPING)
  {
    hide Panics, QueuesExact, CurrentHeads, FamilyOk, PidsOk, WaitersOk, ForksOk, FixedOk, SlicesOk, Alone, GivesUp;
    DoomedRun(es);
    PanicsExactly(StateAfter(es), e);
  }

  lemma NoneYet()
    ensures Possible([]) && StateAfter([]) == Boot()
  {
    hide Inv, Enabled, Panics, Step, Boot;
  }

  lemma PossibleMore(es: seq<Event>, e: Event)
    requires Possible(es) && Enabled(StateAfter(es), e) && !Panics(StateAfter(es), e)
    ensures Possible(es + [e]) && StateAfter(es + [e]) == Step(StateAfter(es), e)
  {
    hide Inv, Enabled, Panics, Step;
    assert (es + [e])[..|es|] == es;
  }

  /** How many processes are queued. */
  function Load(s: Kernel): (n: nat)
    requires |s.q| == LEVELS
  {
    |s.q[0]| + |s.q[1]| + |s.q[2]|
  }

  /** The next step towards the panic: the idle process exits, a fork is given up, or the current process sleeps. */
  function Towards(s: Kernel): Event
    requires |s.np| == NPROC && 0 <= s.cur < NPROC
  {
    if s.cur == IDLE then Exit else if s.np[s.cur] != NIL then ForkFail else Sleep(0)
  }

  lemma TowardsEnabled(s: Kernel)
    requires Inv(s) && Doomed(s)
    ensures Enabled(s, Towards(s)) && (Panics(s, Towards(s)) ==> ZombieExit(s, Towards(s)))
  {
    hide QueuesExact, FamilyOk, PidsOk, WaitersOk, ForksOk, SlicesOk, Alone, GivesUp, Panics;
    PanicsExactly(s, Towards(s));
  }

  lemma TowardsCloser(s: Kernel)
    requires Inv(s) && Doomed(s) && Enabled(s, Towards(s)) && !Panics(s, Towards(s))
    ensures var t := Step(s, Towards(s));
      && Shape(t) && Load(t) <= Load(s)
      && (s.cur != IDLE && s.np[s.cur] == NIL ==> Load(t) < Load(s))
      && (s.cur == IDLE ==> t.cur != IDLE)
      && (s.cur != IDLE && s.np[s.cur] != NIL ==> t.cur == s.cur && t.np[t.cur] == NIL)
  {
    hide QueuesExact, CurrentHeads, FamilyOk, PidsOk, WaitersOk, ForksOk, FixedOk, SlicesOk, LeavesStuck;
    StepKeeps(s, Towards(s));
    if s.cur == IDLE {
    } else if s.np[s.cur] != NIL {
      ForkingChild(s);
    } else {
      CurrentQueued(s);
    }
  }

  ghost predicate NoKills(es: seq<Event>) {
    forall i {:trigger es[i]} :: 0 <= i < |es| ==> !es[i].Kill?
  }

  ghost predicate PanicAfter(es: seq<Event>, more: seq<Event>, e: Event) {
    Possible(es + more) && Enabled(StateAfter(es + more), e) && ZombieExit(StateAfter(es + more), e)
  }

  /** Once the idle process has been killed, the panic can be reached: everybody has only to go to sleep. */
  lemma PanicComes(es: seq<Event>, s: Kernel) returns (more: seq<Event>, e: Event)
    requires Possible(es) && s == StateAfter(es) && Shape(s) && Doomed(s)
    ensures NoKills(more) && PanicAfter(es, more, e)
    decreases Load(s), s.cur == IDLE, s.np[s.cur] != NIL
  {
    hide Inv, Enabled, Panics, Step, ZombieExit, Doomed, Load, Possible;
    e := Towards(s);
    TowardsEnabled(s);
    if Panics(s, e) {
      more := [];
      assert es + more == es;
    } else {
      PossibleMore(es, e);
      DoomedStep(s, e);
      TowardsCloser(s);
      var rest;
      rest, e := PanicComes(es + [Towards(s)], Step(s, Towards(s)));
      more := [Towards(s)] + rest;
      assert es + [Towards(s)] + rest == es + more;
    }
  }

  /** A run can be continued, without any kill, to the panic "zombie exit". */
  ghost predicate CanPanic(es: seq<Event>)
    requires Possible(es)
  {
    exists more: seq<Event>, e: Event {:trigger NoKills(more), PanicAfter(es, more, e)} ::
      NoKills(more) && PanicAfter(es, more, e)
  }

  lemma NotIdleKill(s: Kernel, e: Event)
    requires !e.Kill?
    ensures !KillsIdle(s, e)
  {
  }

  lemma {:induction false} KilledBefore(es: seq<Event>, more: seq<Event>)
    requires Possible(es) && Possible(es + more) && NoKills(more)
    ensures IdleKilled(es + more) <==> IdleKilled(es)
    decreases |more|
  {
    hide Inv, Enabled, Panics, Step, StateAfter, KillsIdle;
    if more == [] {
      assert es + more == es;
    } else {
      var before := more[..|more| - 1];
      assert (es + more)[..|es + more| - 1] == es + before;
      assert (es + more)[|es + more| - 1] == more[|more| - 1];
      NotIdleKill(StateAfter(es + before), more[|more| - 1]);
      KilledBefore(es, before);
    }
  }

  lemma PanicNeedsKill(es: seq<Event>, more: seq<Event>, e: Event)
    requires Possible(es) && NoKills(more) && PanicAfter(es, more, e)
    ensures IdleKilled(es)
  {
    hide QueuesExact, CurrentHeads, FamilyOk, PidsOk, WaitersOk, ForksOk, FixedOk, SlicesOk;
    hide Enabled, Step, IdleKilled, ZombieExit, Doomed, NoKills;
    KilledBefore(es, more);
    DoomedRun(es + more);
    EnabledExit(StateAfter(es + more), e);
  }

  /** The panic can still come exactly when some kill of the run has named the idle process of this CPU. */
  lemma CanPanicExactly(es: seq<Event>)
    requires Possible(es)
    ensures CanPanic(es) <==> IdleKilled(es)
  {
    hide Inv, Enabled, Panics, Step, Possible, IdleKilled, ZombieExit, Doomed, NoKills, PanicAfter;
    ShapeOf(StateAfter(es));
    DoomedRun(es);
    if Doomed(StateAfter(es)) {
      var more, e := PanicComes(es, StateAfter(es));
    }
    if CanPanic(es) {
      var more, e :| NoKills(more) && PanicAfter(es, more, e);
      PanicNeedsKill(es, more, e);
    }
  }

  lemma EnabledExit(s: Kernel, e: Event)
    requires Inv(s) && Enabled(s, e)
    ensures ZombieExit(s, e) ==> Doomed(s)
  {
  }

  // ---------------------------------------------------------------- a concrete run

  /** The first process is running, boot having just ended with a tick. */
  function Running(killed: bool): Kernel {
    Boot().(cur := INIT,
      procs := Boot().procs[INIT := BootProc(INIT).(state := RUNNING)][IDLE := BootProc(IDLE).(state := RUNNABLE,
      killed := killed)])
  }

  /** It sleeps, and the killed idle process runs. */
  function Waiting(): Kernel {
    Running(true).(q := [[], [], []], cur := IDLE,
      procs := Running(true).procs[INIT := BootProc(INIT).(state := SLEEPING,
        chan := Address(5))][IDLE := BootProc(IDLE).(killed := true)])
  }

  lemma FirstTick()
    ensures Inv(Boot()) && Enabled(Boot(), Tick) && !Panics(Boot(), Tick) && Step(Boot(), Tick) == Running(false)
  {
    BootKeeps();
    hide QueuesExact, CurrentHeads, FamilyOk, PidsOk, WaitersOk, ForksOk, FixedOk, SlicesOk;
    assert Rotated(BalanceSpec.Shuffled([INIT])) == [INIT];
    IdleYieldedQueues(Boot());
    assert Step(Boot(), Tick).procs == Running(false).procs;
  }

  lemma FirstKill(s: Kernel)
    requires s == Running(false) && Inv(s)
    ensures Enabled(s, Kill(2)) && !Panics(s, Kill(2)) && KillsIdle(s, Kill(2)) && Step(s, Kill(2)) == Running(true)
  {
    hide QueuesExact, CurrentHeads, FamilyOk, PidsOk, WaitersOk, ForksOk, FixedOk, SlicesOk;
    assert FindPid(s.procs, 2, 0) == IDLE;
    assert Step(s, Kill(2)).procs == Running(true).procs;
  }

  lemma FirstSleep(s: Kernel)
    requires s == Running(true) && Inv(s)
    ensures Enabled(s, Sleep(5)) && !Panics(s, Sleep(5)) && Step(s, Sleep(5)) == Waiting()
  {
    hide QueuesExact, CurrentHeads, FamilyOk, PidsOk, WaitersOk, ForksOk, FixedOk, SlicesOk;
    assert [INIT][1..] == [];
    assert Step(s, Sleep(5)).procs == Waiting().procs;
  }

  lemma TickRun()
    ensures Possible([Tick]) && StateAfter([Tick]) == Running(false)
  {
    hide Inv, Enabled, Panics, Step, Possible, StateAfter, Boot, Running;
    NoneYet();
    FirstTick();
    PossibleMore([], Tick);
    assert [] + [Tick] == [Tick];
  }

  /** A tick, a kill of pid 2, a sleep: the next interrupt makes the idle process exit and the kernel panics. */
  lemma KilledIdlePanics()
    ensures Possible([Tick] + [Kill(2)] + [Sleep(5)])
    ensures var s := StateAfter([Tick] + [Kill(2)] + [Sleep(5)]); s.cur == IDLE && Enabled(s, Exit) && Panics(s, Exit)
  {
    hide Inv, Enabled, Panics, Step, Possible, StateAfter, Boot, Running, KillsIdle;
    TickRun();
    FirstKill(StateAfter([Tick]));
    PossibleMore([Tick], Kill(2));
    FirstSleep(StateAfter([Tick] + [Kill(2)]));
    PossibleMore([Tick] + [Kill(2)], Sleep(5));
    LastExit(StateAfter([Tick] + [Kill(2)] + [Sleep(5)]));
  }

  lemma LastExit(s: Kernel)
    requires s == Waiting() && Inv(s)
    ensures s.cur == IDLE && Enabled(s, Exit) && Panics(s, Exit)
  {
  }
}
