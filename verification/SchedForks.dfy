/** Fork as a whole, and which channel a process has been left with (proc.c, sysproc.c). */
module SchedForks {
  import opened Lists
  import opened ProcTable
  import opened NodePool
  import opened SchedSpec
  import opened SchedProofs
  import opened SchedRuns
  import opened SchedPanics
  import opened SchedLevels
  import opened SchedWaking

  // ---------------------------------------------------------------- fork

  /** c is the first unused slot. */
  predicate FirstUnused(s: Kernel, c: int) {
    && 0 <= c < |s.procs| && s.procs[c].state == UNUSED
    && forall k {:trigger s.procs[k]} :: 0 <= k < c ==> s.procs[k].state != UNUSED
  }

  /** The current process is about to fork. */
  ghost predicate Forks(s: Kernel, c: int) {
    0 <= s.cur < |s.np| && s.cur != IDLE && s.np[s.cur] == NIL && FirstUnused(s, c)
  }

  /** Slot c taken by copyproc for a child of the current process. */
  function HalfBorn(s: Kernel, c: int, parent: int): Kernel
    requires 0 <= c < |s.procs| && 0 <= s.cur < |s.np|
  {
    s.(procs := s.procs[c := s.procs[c].(state := EMBRYO, pid := s.nextpid, rq := NIL, parent := parent)],
       np := s.np[s.cur := c], nextpid := s.nextpid + 1)
  }

  lemma Allocates(s: Kernel, c: int)
    requires Inv(s) && Forks(s, c)
    ensures Enabled(s, ForkAlloc) && !Panics(s, ForkAlloc) && Step(s, ForkAlloc) == HalfBorn(s, c, NIL)
  {
    hide QueuesExact, CurrentHeads, PidsOk, WaitersOk, ForksOk, FixedOk, SlicesOk;
    assert FindUnused(s.procs, 0) == c;
    assert s.procs[c].parent == NIL;
  }

  lemma Adopts(s: Kernel, c: int, t: Kernel)
    requires 0 <= c < |s.procs| && 0 <= s.cur < |s.np| && s.cur != IDLE && t == HalfBorn(s, c, NIL) && Inv(t)
    ensures Enabled(t, ForkParent) && !Panics(t, ForkParent) && Step(t, ForkParent) == HalfBorn(s, c, s.cur)
    ensures Enabled(t, ForkFail) && !Panics(t, ForkFail)
    ensures Step(t, ForkFail) == s.(procs := s.procs[c := s.procs[c].(state := UNUSED, pid := s.nextpid, rq := NIL,
      parent := NIL)], np := s.np[s.cur := NIL], nextpid := s.nextpid + 1)
  {
    hide QueuesExact, CurrentHeads, FamilyOk, PidsOk, WaitersOk, ForksOk, FixedOk, SlicesOk;
    ForkingChild(t);
  }

  lemma Finishes(s: Kernel, c: int, t: Kernel)
    requires 0 <= c < |s.procs| && 0 <= s.cur < |s.np| && |s.q| == LEVELS && s.cur != IDLE
    requires t == HalfBorn(s, c, s.cur) && Inv(t)
    ensures Enabled(t, ForkFinish) && !Panics(t, ForkFinish)
    ensures Step(t, ForkFinish) == s.(procs := s.procs[c := s.procs[c].(state := RUNNABLE, pid := s.nextpid, rq := 0,
      timeslice := 20, parent := s.cur)], q := s.q[0 := s.q[0] + [c]], np := s.np[s.cur := NIL],
      nextpid := s.nextpid + 1)
  {
    hide QueuesExact, CurrentHeads, FamilyOk, PidsOk, WaitersOk, ForksOk, FixedOk, SlicesOk;
    ForkingChild(t);
    PanicsExactly(t, ForkFinish);
  }

  lemma SizesOf(s: Kernel)
    requires Inv(s)
    ensures |s.procs| == NPROC && |s.q| == LEVELS && |s.np| == NPROC && 0 <= s.cur < NPROC
  {
    hide QueuesExact, CurrentHeads, FamilyOk, PidsOk, WaitersOk, ForksOk, FixedOk, SlicesOk;
  }

  /**
   A fork that is not interrupted, after any run: the first unused slot is a child of the caller, runnable at the end
   of the top level with a full slice and the next pid, and nothing else has changed.
   */
  lemma ForkWhole(es: seq<Event>, c: int)
    requires Possible(es) && Forks(StateAfter(es), c)
    ensures Possible(es + [ForkAlloc] + [ForkParent] + [ForkFinish])
    ensures var s, t := StateAfter(es), StateAfter(es + [ForkAlloc] + [ForkParent] + [ForkFinish]);
      && |s.q| == LEVELS
      && t == s.(procs := s.procs[c := s.procs[c].(state := RUNNABLE, pid := s.nextpid, rq := 0, timeslice := 20,
        parent := s.cur)], q := s.q[0 := s.q[0] + [c]], nextpid := s.nextpid + 1)
  {
    hide Inv, Enabled, Panics, Step, Possible, StateAfter;
    var s := StateAfter(es);
    SizesOf(s);
    Allocates(s, c);
    PossibleMore(es, ForkAlloc);
    Adopts(s, c, StateAfter(es + [ForkAlloc]));
    PossibleMore(es + [ForkAlloc], ForkParent);
    Finishes(s, c, StateAfter(es + [ForkAlloc] + [ForkParent]));
    PossibleMore(es + [ForkAlloc] + [ForkParent], ForkFinish);
    assert s.np[s.cur := NIL] == s.np;
  }

  /** A fork that fails for want of memory gives the slot back: all that remains of it is a pid. */
  lemma ForkUndone(es: seq<Event>, c: int)
    requires Possible(es) && Forks(StateAfter(es), c)
    ensures Possible(es + [ForkAlloc] + [ForkFail])
    ensures var s, t := StateAfter(es), StateAfter(es + [ForkAlloc] + [ForkFail]);
      t == s.(procs := s.procs[c := s.procs[c].(pid := s.nextpid, rq := NIL)], nextpid := s.nextpid + 1)
  {
    hide Inv, Enabled, Panics, Step, Possible, StateAfter;
    var s := StateAfter(es);
    SizesOf(s);
    UnusedOrphan(s, c);
    Allocates(s, c);
    PossibleMore(es, ForkAlloc);
    Adopts(s, c, StateAfter(es + [ForkAlloc]));
    PossibleMore(es + [ForkAlloc], ForkFail);
    assert s.np[s.cur := NIL] == s.np;
  }

  lemma UnusedOrphan(s: Kernel, c: int)
    requires Inv(s) && FirstUnused(s, c)
    ensures s.procs[c].parent == NIL
  {
    hide QueuesExact, CurrentHeads, PidsOk, WaitersOk, ForksOk, FixedOk, SlicesOk;
  }

  /** Without an unused slot fork fails at once and changes nothing. */
  lemma ForkFull(s: Kernel)
    requires Inv(s) && Enabled(s, ForkAlloc) && forall k {:trigger s.procs[k]} :: 0 <= k < |s.procs| ==>
      s.procs[k].state != UNUSED
    ensures !Panics(s, ForkAlloc) && Step(s, ForkAlloc) == s
  {
    hide QueuesExact, CurrentHeads, FamilyOk, PidsOk, WaitersOk, ForksOk, FixedOk, SlicesOk;
    assert FindUnused(s.procs, 0) == NIL;
  }

  // ---------------------------------------------------------------- channels

  /** wait has to sleep: there are children, none of them a zombie, and the caller is not killed. */
  ghost predicate WaitSleeps(s: Kernel)
    requires 0 <= s.cur < |s.procs|
  {
    && (forall c :: !IsZombieChild(s, c)) && !s.procs[s.cur].killed
    && exists c {:trigger s.procs[c]} :: 0 <= c < |s.procs| && s.procs[c].parent == s.cur
  }

  /** The event makes p sleep or come out of its sleep. */
  ghost predicate SetsChan(s: Kernel, e: Event, p: int) {
    0 <= p < |s.procs| && p == s.cur && (e.Sleep? || e.Resume? || (e.Wait? && WaitSleeps(s)))
  }

  function NewChan(e: Event, p: int): Chan {
    if e.Sleep? then Address(e.a) else if e.Wait? then OfProc(p) else NoChan
  }

  ghost predicate ChansAre(s: Kernel, t: Kernel, e: Event, p: int) {
    && |s.procs| == |t.procs| == NPROC && 0 <= p < NPROC
    && t.procs[p].chan == if SetsChan(s, e, p) then NewChan(e, p) else s.procs[p].chan
  }

  lemma AsleepChan(s: Kernel, t: Kernel, e: Event, chan: Chan, p: int)
    requires FallsAsleep(s, t, chan) && SetsChan(s, e, s.cur) && chan == NewChan(e, s.cur) && 0 <= p < NPROC
    ensures ChansAre(s, t, e, p)
  {
  }

  lemma WaitChan(s: Kernel, p: int)
    requires Inv(s) && Enabled(s, Wait) && !Panics(s, Wait) && 0 <= p < NPROC
    ensures ChansAre(s, Step(s, Wait), Wait, p)
  {
    hide Inv, Step, Enabled, Panics, FallsAsleep;
    SizesOf(s);
    WaitStep(s);
    if WaitSleeps(s) {
      AsleepChan(s, Step(s, Wait), Wait, OfProc(s.cur), p);
    }
  }

  lemma TickChan(s: Kernel, p: int)
    requires Inv(s) && Enabled(s, Tick) && !Panics(s, Tick) && 0 <= p < NPROC
    ensures ChansAre(s, Step(s, Tick), Tick, p)
  {
    hide Inv, Step, Enabled, Panics;
    SizesOf(s);
    if s.cur == IDLE {
      IdleTickOrder(s);
    } else {
      UserTickOrder(s);
    }
  }

  lemma ExitChan(s: Kernel, p: int)
    requires Inv(s) && Enabled(s, Exit) && !Panics(s, Exit) && 0 <= p < NPROC
    ensures ChansAre(s, Step(s, Exit), Exit, p)
  {
    hide QueuesExact, CurrentHeads, FamilyOk, PidsOk, WaitersOk, ForksOk, SlicesOk, FixedOk, Orphaned, Zombie,
      LeavesStuck;
    if s.cur != IDLE {
      ExitStep(s);
    } else {
      PickQueued(s);
    }
  }

  lemma WakeupChan(s: Kernel, b: int, p: int)
    requires Inv(s) && !Panics(s, Wakeup(b)) && 0 <= p < NPROC
    ensures Enabled(s, Wakeup(b)) && ChansAre(s, Step(s, Wakeup(b)), Wakeup(b), p)
  {
    hide QueuesExact, CurrentHeads, FamilyOk, PidsOk, WaitersOk, ForksOk, SlicesOk, FixedOk, Sleepers;
  }

  /** A process's channel changes only by its own sleep, wait or coming out of them. */
  lemma ChanStep(s: Kernel, e: Event, p: int)
    requires Inv(s) && Enabled(s, e) && !Panics(s, e) && 0 <= p < NPROC
    ensures ChansAre(s, Step(s, e), e, p)
  {
    hide *;
    match e
    case Tick => TickChan(s, p);
    case Sleep(a) => SleepChan(s, a, p);
    case Wakeup(b) => WakeupChan(s, b, p);
    case Exit => ExitChan(s, p);
    case Wait => WaitChan(s, p);
    case _ => OtherChan(s, e, p);
  }

  lemma SleepChan(s: Kernel, a: int, p: int)
    requires Inv(s) && Enabled(s, Sleep(a)) && !Panics(s, Sleep(a)) && 0 <= p < NPROC
    ensures ChansAre(s, Step(s, Sleep(a)), Sleep(a), p)
  {
    hide Inv, Step, Enabled, Panics, FallsAsleep;
    SizesOf(s);
    SleepStep(s, a);
    AsleepChan(s, Step(s, Sleep(a)), Sleep(a), Address(a), p);
  }

  lemma OtherChan(s: Kernel, e: Event, p: int)
    requires Inv(s) && Enabled(s, e) && !Panics(s, e) && 0 <= p < NPROC
    requires e.ForkAlloc? || e.ForkParent? || e.ForkFail? || e.ForkFinish? || e.Resume? || e.Kill?
    ensures ChansAre(s, Step(s, e), e, p)
  {
    hide QueuesExact, CurrentHeads, FamilyOk, PidsOk, WaitersOk, ForksOk, SlicesOk, FixedOk;
    if e.ForkParent? || e.ForkFail? || e.ForkFinish? {
      ForkingChild(s);
    }
  }

  /** The channel of the process's last sleep or wait, if it has not come out of it since. */
  ghost function LastChan(es: seq<Event>, p: int): Chan
    requires Possible(es)
    decreases |es|
  {
    if es == [] then NoChan
    else
      var before, e := es[..|es| - 1], es[|es| - 1];
      if SetsChan(StateAfter(before), e, p) then NewChan(e, p) else LastChan(before, p)
  }

  lemma BootChan(p: int)
    requires 0 <= p < NPROC
    ensures |Boot().procs| == NPROC && Boot().procs[p].chan == NoChan
  {
  }

  /** In every run a process has the channel of the sleep it has not come out of yet, and otherwise none. */
  lemma {:induction false} ChanExactly(es: seq<Event>, p: int)
    requires Possible(es) && 0 <= p < NPROC
    ensures |StateAfter(es).procs| == NPROC && StateAfter(es).procs[p].chan == LastChan(es, p)
    decreases |es|
  {
    if es == [] {
      BootChan(p);
    } else {
      hide Inv, Enabled, Panics, Step, SetsChan, NewChan;
      ChanExactly(es[..|es| - 1], p);
      ChanStep(StateAfter(es[..|es| - 1]), es[|es| - 1], p);
    }
  }
}
