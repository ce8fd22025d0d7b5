/** Whole runs of the kernel: what holds in every state reachable from boot. */
module SchedRuns {
  import opened Lists
  import opened ProcTable
  import opened NodePool
  import opened SchedSpec
  import opened SchedProofs

  /** One event. Only events that do not panic have a result. */
  ghost function Step(s: Kernel, e: Event): (t: Kernel)
    requires Inv(s) && Enabled(s, e) && !Panics(s, e)
  {
    match e
    case Tick => if s.cur == IDLE then IdleYieldedQueues(s); TickIdle(s) else CurrentQueued(s); TickUser(s)
    case ForkAlloc => Allocated(s)
    case ForkParent => ForkingChild(s); Adopted(s)
    case ForkFail => ForkingChild(s); Abandoned(s)
    case ForkFinish => Forked(s)
    case Sleep(a) => CurrentQueued(s); Slept(s, Address(a))
    case Wakeup(b) => Woken(s, Address(b), NPROC)
    case Resume => WithProc(s, s.cur, s.procs[s.cur].(chan := NoChan))
    case Exit => Exited(s)
    case Wait => Waited(s)
    case Kill(pid) => Killed(s, pid)
  }

  ghost function Exited(s: Kernel): (t: Kernel)
    requires Inv(s) && Enabled(s, Exit) && !Panics(s, Exit)
  {
    if s.cur == IDLE then IdleGone(s) else ExitKeeps(s); Zombie(Orphaned(s))
  }

  /** One scan of wait. */
  ghost function Waited(s: Kernel): (t: Kernel)
    requires Inv(s) && Enabled(s, Wait) && !Panics(s, Wait)
  {
    var c := FindZombie(s.procs, s.cur, 0);
    if c != NIL then Reaped(s, c)
    else if !HasKids(s.procs, s.cur) || s.procs[s.cur].killed then s
    else CurrentQueued(s); Slept(s, OfProc(s.cur))
  }

  lemma StepKeeps(s: Kernel, e: Event)
    requires Inv(s) && Enabled(s, e) && !Panics(s, e)
    ensures Inv(Step(s, e))
  {
    hide FamilyOk, PidsOk, WaitersOk, ForksOk, FixedOk, QueuesExact, CurrentHeads, SlicesOk;
    hide TickIdle, TickUser, Allocated, Adopted, Abandoned, Forked, Slept, Woken, Orphaned, Zombie, Reaped;
    match e
    case Tick => if s.cur == IDLE { TickIdleKeeps(s); } else { TickUserKeeps(s); }
    case ForkAlloc => AllocatedKeeps(s);
    case ForkParent => AdoptedKeeps(s);
    case ForkFail => AbandonedKeeps(s);
    case ForkFinish => ForkedKeeps(s);
    case Sleep(a) => SleptKeeps(s, Address(a));
    case Wakeup(b) => WokenKeeps(s, Address(b), NPROC);
    case Resume => CurrentQueued(s); TouchKeeps(s, s.cur, s.procs[s.cur].(chan := NoChan));
    case Exit => if s.cur == IDLE { IdleGoneKeeps(s); } else { ExitKeeps(s); }
    case Wait =>
      var c := FindZombie(s.procs, s.cur, 0);
      if c != NIL {
        ReapedKeeps(s, c);
      } else if HasKids(s.procs, s.cur) && !s.procs[s.cur].killed {
        SleptKeeps(s, OfProc(s.cur));
      }
    case Kill(pid) =>
      var p := FindPid(s.procs, pid, 0);
      if p != NIL {
        TouchKeeps(s, p, s.procs[p].(killed := true));
      }
  }

  // ---------------------------------------------------------------- panics

  lemma RoomToEnter(s: Kernel, p: int, level: int)
    requires Shape(s) && QueuesExact(s) && 0 <= p < NPROC && 0 <= level < LEVELS && p !in s.q[level]
    ensures |s.q[level]| < NPROC
  {
    ConcatSame(s.q[level], [p]);
    Pigeonhole(s.q[level] + [p], NPROC);
  }

  lemma RoomToWake(s: Kernel, chan: Chan)
    requires Shape(s) && QueuesExact(s) && FixedOk(s)
    ensures |s.q[0]| + |Sleepers(s.procs, chan, NPROC)| <= NPROC
  {
    WokenQueues(s, chan, NPROC);
    Pigeonhole(Woken(s, chan, NPROC).q[0], NPROC);
  }

  /** The current process is the only one queued. */
  ghost predicate Alone(s: Kernel)
    requires Shape(s)
  {
    var level := s.procs[s.cur].rq;
    && s.q[0] == (if level == 0 then [s.cur] else [])
    && s.q[1] == (if level == 1 then [s.cur] else [])
    && s.q[2] == (if level == 2 then [s.cur] else [])
  }

  /**
   exit of the current process wakes nobody: neither its parent nor, for a zombie child it leaves, init is in wait.
   */
  ghost predicate WakesNobody(s: Kernel)
    requires Shape(s)
  {
    var dad := s.procs[s.cur].parent;
    && !(0 <= dad < NPROC && Asleep(s.procs[dad], OfProc(dad)))
    && !((exists i :: 0 <= i < NPROC && ZombieOf(s.procs[i], s.cur)) && Asleep(s.procs[INIT], OfProc(INIT)))
  }

  /** The event makes the current process give up the CPU without becoming runnable, and no other one runnable. */
  ghost predicate GivesUp(s: Kernel, e: Event)
    requires Shape(s)
  {
    || e.Sleep?
    || (e.Wait? && FindZombie(s.procs, s.cur, 0) == NIL && HasKids(s.procs, s.cur) && !s.procs[s.cur].killed)
    || (e.Exit? && WakesNobody(s))
  }

  /** The panic "zombie exit". */
  ghost predicate ZombieExit(s: Kernel, e: Event)
    requires Shape(s)
  {
    || (e.Exit? && s.cur == IDLE && s.q[0] == [] && s.q[1] == [] && s.q[2] == [])
    || (s.cur != IDLE && !(e.Exit? && s.cur == INIT) && s.procs[IDLE].state == ZOMBIE && Alone(s) && GivesUp(s, e))
  }

  lemma DropAlone(s: Kernel)
    requires Shape(s) && QueuesExact(s) && CurrentHeads(s) && s.cur != IDLE
    ensures LeavesStuck(s) <==> s.procs[IDLE].state == ZOMBIE && Alone(s)
  {
    CurrentQueued(s);
    var level := s.procs[s.cur].rq;
    var t := DropHead(s, level);
    forall l | 0 <= l < LEVELS && t.q[l] != []
      ensures t.q[l][0] != IDLE
    {
      assert t.q[l][0] in s.q[l];
    }
    assert s.q[level] == [s.cur] + t.q[level];
  }

  lemma SleepersOfProc(s: Kernel, d: int)
    requires Shape(s) && WaitersOk(s)
    ensures Sleepers(s.procs, OfProc(d), NPROC) == [] <==> !(0 <= d < NPROC && Asleep(s.procs[d], OfProc(d)))
  {
    SleepersAre(s.procs, OfProc(d), NPROC);
    var list := Sleepers(s.procs, OfProc(d), NPROC);
    assert list != [] ==> list[0] in list;
    assert 0 <= d < NPROC && Asleep(s.procs[d], OfProc(d)) ==> d in list;
  }

  /** Appending to the top level leaves the current process alone only if nothing is appended. */
  lemma AppendAlone(s: Kernel, t: Kernel, more: seq<int>)
    requires Shape(s) && Shape(t) && QueuesExact(s) && CurrentHeads(s) && s.cur != IDLE
    requires t.q == s.q[0 := s.q[0] + more] && t.cur == s.cur && t.procs[t.cur].rq == s.procs[s.cur].rq
    ensures Alone(t) <==> Alone(s) && more == []
  {
    hide QueuesExact, CurrentHeads, InRange;
    CurrentQueued(s);
    assert |t.q[0]| == |s.q[0]| + |more|;
    assert s.procs[s.cur].rq == 0 && |s.q[0]| == 1 ==> s.q[0] == [s.cur];
    assert more == [] ==> t.q[0] == s.q[0];
  }

  lemma OrphanedAlone(s: Kernel)
    requires Inv(s) && s.cur != IDLE && s.cur != INIT && s.np[s.cur] == NIL
    ensures Shape(Orphaned(s)) && Orphaned(s).procs[IDLE].state == s.procs[IDLE].state
    ensures Alone(Orphaned(s)) <==> Alone(s) && WakesNobody(s)
  {
    hide FamilyOk, PidsOk, ForksOk, SlicesOk, QueuesExact, CurrentHeads, FixedOk, WaitersOk, Alone;
    OrphanedKeeps(s);
    CurrentQueued(s);
    var dad := s.procs[s.cur].parent;
    SleepersOfProc(s, dad);
    var t := Woken(s, OfProc(dad), NPROC);
    WokenKeeps(s, OfProc(dad), NPROC);
    var u := HandedOver(t, NPROC);
    SleepersSame(t.procs, u.procs, OfProc(INIT), NPROC);
    SleepersOfProc(t, INIT);
    var first, second := Sleepers(s.procs, OfProc(dad), NPROC), Sleepers(u.procs, OfProc(INIT), NPROC);
    var zombie := exists i :: 0 <= i < NPROC && ZombieOf(s.procs[i], s.cur);
    ZombiesKept(s, OfProc(dad));
    var extra := first + if zombie then second else [];
    assert Orphaned(s).q[0] == s.q[0] + extra;
    IdleState(s);
    AppendAlone(s, Orphaned(s), extra);
    assert Asleep(t.procs[INIT], OfProc(INIT)) <==> Asleep(s.procs[INIT], OfProc(INIT)) && dad != INIT;
  }

  lemma ZombiesKept(s: Kernel, chan: Chan)
    requires Shape(s) && |Woken(s, chan, NPROC).procs| == NPROC
    ensures (exists i :: 0 <= i < NPROC && ZombieOf(s.procs[i], s.cur)) <==>
      exists i :: 0 <= i < NPROC && ZombieOf(Woken(s, chan, NPROC).procs[i], s.cur)
  {
    var t := Woken(s, chan, NPROC);
    assert forall i :: 0 <= i < NPROC ==> (ZombieOf(t.procs[i], s.cur) <==> ZombieOf(s.procs[i], s.cur));
  }

  lemma IdleState(s: Kernel)
    requires Inv(s)
    ensures Orphaned(s).procs[IDLE].state == s.procs[IDLE].state
  {
    hide FamilyOk, PidsOk, ForksOk, SlicesOk, QueuesExact, CurrentHeads, WaitersOk;
  }

  /**
   The panics that can be reached: the first process exiting, kill finding its target asleep, and the idle
   process of this CPU exiting (after a kill) with nobody else to run, or being the only one left after that.
   */
  lemma PanicsExactly(s: Kernel, e: Event)
    requires Inv(s) && Enabled(s, e)
    ensures Panics(s, e) <==>
      || (e.Exit? && s.cur == INIT)
      || (e.Kill? && FindPid(s.procs, e.pid, 0) != NIL && s.procs[FindPid(s.procs, e.pid, 0)].state == SLEEPING)
      || ZombieExit(s, e)
  {
    hide FamilyOk, PidsOk, SlicesOk;
    match e
    case Tick =>
      if s.cur != IDLE {
        CurrentQueued(s);
      }
    case ForkFinish =>
      ForkingChild(s);
      EnterKeeps(s, s.np[s.cur], s.procs[s.np[s.cur]].(state := RUNNABLE), 0);
      RoomToEnter(s, s.np[s.cur], 0);
    case Wakeup(b) => RoomToWake(s, Address(b));
    case Sleep(a) => DropAlone(s);
    case Wait => DropAlone(s);
    case Exit =>
      if s.cur == IDLE {
        IdleAlone(s);
      } else if s.cur != INIT {
        OrphanedAlone(s);
        OrphanedKeeps(s);
        DropAlone(Orphaned(s));
      }
    case _ =>
  }

  lemma IdleAlone(s: Kernel)
    requires Shape(s) && QueuesExact(s)
    ensures Pick(s.q) == IDLE <==> s.q[0] == [] && s.q[1] == [] && s.q[2] == []
  {
    PickQueued(s);
  }

  // ---------------------------------------------------------------- runs

  /** The table after userinit and runIdle: the first user process queued, the idle process of the CPU running. */
  function BootProc(i: int): (x: Proc) {
    if i == INIT then Proc(RUNNABLE, 1, NIL, NoChan, false, MaxSlices(0), 0)
    else if i == IDLE then Proc(RUNNING, 2, NIL, NoChan, false, 0, NIL)
    else if IsIdle(i) then Proc(RUNNABLE, i + 1, NIL, NoChan, false, 0, NIL)
    else Proc(UNUSED, 0, NIL, NoChan, false, 0, NIL)
  }

  function Boot(): (s: Kernel) {
    Kernel(seq(NPROC, i => BootProc(i)), [[INIT], [], []], IDLE, seq(NPROC, i => NIL), 2 + NCPU)
  }

  ghost predicate BootLike(s: Kernel) {
    && |s.procs| == |s.np| == NPROC && s.q == [[INIT], [], []] && s.cur == IDLE && s.nextpid == 2 + NCPU
    && (forall p {:trigger s.procs[p]} :: 0 <= p < NPROC ==> s.procs[p] == BootProc(p))
    && (forall p {:trigger s.np[p]} :: 0 <= p < NPROC ==> s.np[p] == NIL)
  }

  lemma BootQueues(s: Kernel)
    requires BootLike(s)
    ensures Shape(s) && QueuesExact(s) && CurrentHeads(s)
  {
    assert s.q[0] == [INIT] && s.q[1] == [] && s.q[2] == [];
  }

  lemma BootProcs(s: Kernel)
    requires BootLike(s) && Shape(s)
    ensures SlicesOk(s) && FixedOk(s) && FamilyOk(s)
  {
  }

  lemma BootRest(s: Kernel)
    requires BootLike(s) && Shape(s)
    ensures WaitersOk(s) && ForksOk(s) && PidsOk(s)
  {
  }

  lemma BootKeeps()
    ensures Inv(Boot())
  {
    hide QueuesExact, CurrentHeads, SlicesOk, FixedOk, FamilyOk, WaitersOk, ForksOk, PidsOk, BootProc;
    var s := Boot();
    BootQueues(s);
    BootProcs(s);
    BootRest(s);
  }

  /** The events es can happen one after the other from boot, none of them panicking. */
  ghost predicate Possible(es: seq<Event>)
    decreases |es|, 0
  {
    es == [] || (var before := es[..|es| - 1]; var e := es[|es| - 1];
                 Possible(before) && Enabled(StateAfter(before), e) && !Panics(StateAfter(before), e))
  }

  /** The state the events es lead to; the invariant holds in all of them. */
  ghost function StateAfter(es: seq<Event>): (s: Kernel)
    requires Possible(es)
    ensures Inv(s)
    decreases |es|, 1
  {
    if es == [] then BootKeeps(); Boot()
    else
      var before, e := es[..|es| - 1], es[|es| - 1];
      StepKeeps(StateAfter(before), e);
      Step(StateAfter(before), e)
  }
}
