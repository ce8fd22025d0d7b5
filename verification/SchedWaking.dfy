/** Who sleeps until when: sleep, wakeup, wait and exit over all runs (proc.c). */
module SchedWaking {
  import opened Lists
  import opened ProcTable
  import opened NodePool
  import opened SchedSpec
  import opened SchedProofs
  import opened SchedRuns
  import opened SchedPanics
  import opened SchedLevels

  // ---------------------------------------------------------------- wakeup

  predicate SleepsOn(x: Proc, chan: Chan) {
    x.state == SLEEPING && x.chan == chan
  }

  /** x made runnable on the top level, with a fresh slice unless that was its last queue. */
  predicate MadeRunnable(x: Proc, y: Proc) {
    y == x.(state := RUNNABLE, rq := 0, timeslice := if x.rq == 0 then x.timeslice else 20)
  }

  predicate Ascending(r: seq<int>) {
    forall i, j {:trigger r[i], r[j]} :: 0 <= i < j < |r| ==> r[i] < r[j]
  }

  lemma {:induction false} SleepersAscend(procs: seq<Proc>, chan: Chan, n: nat)
    requires n <= |procs| == NPROC
    ensures Ascending(Sleepers(procs, chan, n))
  {
    if n > 0 {
      SleepersAscend(procs, chan, n - 1);
      SleepersAre(procs, chan, n - 1);
      var before := Sleepers(procs, chan, n - 1);
      assert forall i {:trigger before[i]} :: 0 <= i < |before| ==> before[i] in before;
    }
  }

  /** t is s after every process asleep on chan, and no other, has joined the top level behind all that was there. */
  ghost predicate AllAwake(s: Kernel, t: Kernel, chan: Chan) {
    && |s.procs| == |t.procs| == NPROC && |s.q| == |t.q| == LEVELS
    && t.cur == s.cur && t.np == s.np && t.nextpid == s.nextpid
    && t.q[1] == s.q[1] && t.q[2] == s.q[2] && s.q[0] <= t.q[0]
    && (forall p {:trigger t.procs[p]} :: 0 <= p < NPROC ==>
         if SleepsOn(s.procs[p], chan) then MadeRunnable(s.procs[p], t.procs[p]) else t.procs[p] == s.procs[p])
    && (forall p {:trigger p in t.q[0]} :: p in t.q[0] <==>
         p in s.q[0] || (0 <= p < NPROC && SleepsOn(s.procs[p], chan)))
    && Ascending(t.q[0][|s.q[0]|..])
  }

  lemma WakeupStep(s: Kernel, b: int)
    requires Inv(s) && !Panics(s, Wakeup(b))
    ensures AllAwake(s, Step(s, Wakeup(b)), Address(b)) && Distinct(Step(s, Wakeup(b)).q[0])
  {
    hide QueuesExact, CurrentHeads, FamilyOk, PidsOk, WaitersOk, ForksOk, FixedOk, SlicesOk, Sleepers, Distinct,
      Ascending;
    var t := Step(s, Wakeup(b));
    SleepersAscend(s.procs, Address(b), NPROC);
    WokenTop(s, Address(b), NPROC);
    assert t.q[0][|s.q[0]|..] == Sleepers(s.procs, Address(b), NPROC);
  }

  lemma WakeupPossible(s: Kernel, b: int)
    requires Inv(s)
    ensures Enabled(s, Wakeup(b)) && !Panics(s, Wakeup(b))
  {
    hide QueuesExact, CurrentHeads, FamilyOk, PidsOk, WaitersOk, ForksOk, FixedOk, SlicesOk, Sleepers;
    RoomToWake(s, Address(b));
  }

  /**
   wakeup(b) can happen after any run: every process asleep on b becomes runnable and is queued once on the top
   level behind all that was there, in table order; nothing else changes.
   */
  lemma WakeupExactly(es: seq<Event>, b: int)
    requires Possible(es)
    ensures Possible(es + [Wakeup(b)])
    ensures AllAwake(StateAfter(es), StateAfter(es + [Wakeup(b)]), Address(b))
    ensures Distinct(StateAfter(es + [Wakeup(b)]).q[0])
  {
    hide Inv, Enabled, Panics, Step, AllAwake, Distinct;
    WakeupPossible(StateAfter(es), b);
    PossibleMore(es, Wakeup(b));
    WakeupStep(StateAfter(es), b);
  }

  // ---------------------------------------------------------------- sleepers

  /** The current process has a zombie child. */
  predicate LeavesZombie(s: Kernel) {
    exists c {:trigger s.procs[c]} :: 0 <= c < |s.procs| && s.procs[c].state == ZOMBIE && s.procs[c].parent == s.cur
  }

  /**
   The event wakes who sleeps on chan: a wakeup of it, or an exit for the parent, or for init when it inherits a
   zombie.
   */
  predicate Wakes(s: Kernel, e: Event, chan: Chan) {
    || (e.Wakeup? && chan == Address(e.b))
    || (e.Exit? && 0 <= s.cur < |s.procs| && s.cur != IDLE &&
         (chan == OfProc(s.procs[s.cur].parent) || (chan == OfProc(INIT) && LeavesZombie(s))))
  }

  /** Apart from its parent, who may have exited. */
  predicate SameSleeper(x: Proc, y: Proc) {
    y == x.(parent := y.parent)
  }

  ghost predicate StepsTo(s: Kernel, t: Kernel, p: int, woken: bool)
    requires 0 <= p < |s.procs| == |t.procs| && |t.q| == LEVELS
  {
    if woken then (t.procs[p].state == RUNNABLE || t.procs[p].state == RUNNING) && t.procs[p].rq == 0 && p in t.q[0]
    else SameSleeper(s.procs[p], t.procs[p])
  }

  lemma DispatchOther(s: Kernel, p: int)
    requires Shape(s) && QueuesExact(s) && 0 <= p < NPROC && !Queued(s, p) && !IsIdle(p)
    ensures Dispatch(s).procs[p] == s.procs[p]
  {
    hide QueuesExact;
    PickQueued(s);
  }

  /** The current process blocks: a sleeper sleeps on. */
  lemma BlockOther(s: Kernel, x: Proc, p: int)
    requires Shape(s) && QueuesExact(s) && CurrentHeads(s) && s.cur != IDLE && x.state != RUNNABLE && x.state != RUNNING
    requires 0 <= p < NPROC && p != s.cur && s.procs[p].state == SLEEPING && !IsIdle(p)
    ensures 0 <= s.procs[s.cur].rq < LEVELS && s.q[s.procs[s.cur].rq] != []
    ensures |Block(s, x).procs| == NPROC && |Block(s, x).q| == LEVELS && Block(s, x).procs[p] == s.procs[p]
  {
    hide QueuesExact, CurrentHeads;
    CurrentQueued(s);
    DropKeeps(s, s.cur, x);
    DispatchOther(DropHead(WithProc(s, s.cur, x), s.procs[s.cur].rq), p);
  }

  lemma SleeperIs(s: Kernel, p: int)
    requires Inv(s) && 0 <= p < NPROC && s.procs[p].state == SLEEPING
    ensures p != s.cur && !IsIdle(p)
  {
    hide QueuesExact, FamilyOk, PidsOk, WaitersOk, ForksOk, SlicesOk;
  }

  lemma TickIdleSleeper(s: Kernel, p: int)
    requires Inv(s) && s.cur == IDLE && 0 <= p < NPROC && s.procs[p].state == SLEEPING && !IsIdle(p)
    ensures Shape(IdleYielded(s)) && |TickIdle(s).procs| == NPROC && TickIdle(s).procs[p] == s.procs[p]
  {
    hide QueuesExact, CurrentHeads, FamilyOk, PidsOk, WaitersOk, ForksOk, SlicesOk, FixedOk;
    IdleYieldedQueues(s);
    DispatchOther(IdleYielded(s), p);
  }

  lemma TickUserSleeper(s: Kernel, p: int)
    requires Inv(s) && s.cur != IDLE && 0 <= p < NPROC && s.procs[p].state == SLEEPING && p != s.cur && !IsIdle(p)
    ensures 0 <= s.procs[s.cur].rq < LEVELS && s.q[s.procs[s.cur].rq] != []
    ensures |TickUser(s).procs| == NPROC && TickUser(s).procs[p] == s.procs[p]
  {
    hide QueuesExact, CurrentHeads, FamilyOk, PidsOk, WaitersOk, ForksOk, SlicesOk, FixedOk, Demoted;
    CurrentQueued(s);
    if s.procs[s.cur].rq < 2 && s.procs[s.cur].timeslice == 1 {
      var u := DemotedFrom(s);
      DispatchOther(u, p);
    }
  }

  /** What the exit of the current process makes of another one: orphans go to init, waiting parents wake up. */
  function AfterExit(s: Kernel, x: Proc): (y: Proc) {
    var z := if x.parent == s.cur then x.(parent := INIT) else x;
    if x.state == SLEEPING && Wakes(s, Exit, x.chan)
    then z.(state := RUNNABLE, rq := 0, timeslice := if x.rq == 0 then x.timeslice else 20) else z
  }

  lemma OrphanedAt(s: Kernel, p: int)
    requires Inv(s) && s.cur != IDLE && s.cur != INIT && s.np[s.cur] == NIL && 0 <= p < NPROC && p != s.cur
    ensures |Orphaned(s).procs| == NPROC && Orphaned(s).procs[p] == AfterExit(s, s.procs[p])
  {
    hide QueuesExact, CurrentHeads, FamilyOk, PidsOk, WaitersOk, ForksOk, SlicesOk, FixedOk;
    var t := Woken(s, OfProc(s.procs[s.cur].parent), NPROC);
    assert t.cur == s.cur;
    assert forall i {:trigger t.procs[i]} :: 0 <= i < NPROC ==>
      (ZombieOf(t.procs[i], s.cur) <==> ZombieOf(s.procs[i], s.cur));
    if LeavesZombie(s) {
      var c :| 0 <= c < NPROC && s.procs[c].state == ZOMBIE && s.procs[c].parent == s.cur;
      assert ZombieOf(t.procs[c], t.cur);
    }
  }

  lemma ExitSleeper(s: Kernel, p: int)
    requires Inv(s) && s.cur != IDLE && s.cur != INIT && s.np[s.cur] == NIL && !LeavesStuck(Orphaned(s))
    requires 0 <= p < NPROC && s.procs[p].state == SLEEPING && p != s.cur && !IsIdle(p)
    ensures var t := Orphaned(s);
      && Shape(t) && 0 <= t.procs[t.cur].rq < LEVELS && t.q[t.procs[t.cur].rq] != []
      && |Zombie(t).procs| == NPROC && |Zombie(t).q| == LEVELS
         && StepsTo(s, Zombie(t), p, Wakes(s, Exit, s.procs[p].chan))
  {
    hide QueuesExact, CurrentHeads, FamilyOk, PidsOk, WaitersOk, ForksOk, SlicesOk, FixedOk, LeavesStuck, Orphaned,
      Wakes, Block, Dispatch;
    OrphanedKeeps(s);
    OrphanedAt(s, p);
    var t := Orphaned(s);
    var x := t.procs[t.cur].(killed := false, state := ZOMBIE);
    if Wakes(s, Exit, s.procs[p].chan) {
      BlockReady(t, x, p);
    } else {
      BlockOther(t, x, p);
    }
  }

  /** The current process blocks: another runnable process stays on its queue, perhaps now running. */
  lemma BlockReady(s: Kernel, x: Proc, p: int)
    requires Shape(s) && QueuesExact(s) && CurrentHeads(s) && s.cur != IDLE && x.state != RUNNABLE && x.state != RUNNING
    requires 0 <= p < NPROC && p != s.cur && s.procs[p].state == RUNNABLE && s.procs[p].rq == 0 && !IsIdle(p)
    ensures 0 <= s.procs[s.cur].rq < LEVELS && s.q[s.procs[s.cur].rq] != []
    ensures var t := Block(s, x);
      && |t.procs| == NPROC && |t.q| == LEVELS && (t.procs[p].state == RUNNABLE || t.procs[p].state == RUNNING)
      && t.procs[p].rq == 0 && p in t.q[0]
  {
    CurrentQueued(s);
    DropKeeps(s, s.cur, x);
    assert Queued(s, p) && p in s.q[0];
    var u := DropHead(WithProc(s, s.cur, x), s.procs[s.cur].rq);
    assert p in u.q[0];
    hide QueuesExact, CurrentHeads;
    PickQueued(u);
  }

  /** A sleeper is made runnable by exactly the events that wake its channel, and by no other is it touched. */
  lemma SleeperStep(s: Kernel, e: Event, p: int)
    requires Inv(s) && Enabled(s, e) && !Panics(s, e) && 0 <= p < NPROC && s.procs[p].state == SLEEPING
    ensures |Step(s, e).procs| == NPROC && |Step(s, e).q| == LEVELS
    ensures StepsTo(s, Step(s, e), p, Wakes(s, e, s.procs[p].chan))
  {
    hide QueuesExact, CurrentHeads, FamilyOk, PidsOk, WaitersOk, ForksOk, SlicesOk, FixedOk;
    hide TickIdle, TickUser, Orphaned, Zombie, Block, LeavesStuck, Dispatch, Sleepers;
    SleeperIs(s, p);
    StepKeeps(s, e);
    match e
    case Tick => if s.cur == IDLE { TickIdleSleeper(s, p); } else { TickUserSleeper(s, p); }
    case ForkAlloc =>
    case ForkParent => ForkingChild(s);
    case ForkFail => ForkingChild(s);
    case ForkFinish => ForkingChild(s);
    case Sleep(a) => BlockOther(s, s.procs[s.cur].(chan := Address(a), state := SLEEPING), p);
    case Wakeup(b) => WakeupStep(s, b);
    case Resume =>
    case Exit =>
      if s.cur != IDLE {
        ExitSleeper(s, p);
      } else {
        IdleGoneSleeper(s, p);
      }
    case Wait =>
      if FindZombie(s.procs, s.cur, 0) == NIL && HasKids(s.procs, s.cur) && !s.procs[s.cur].killed {
        BlockOther(s, s.procs[s.cur].(chan := OfProc(s.cur), state := SLEEPING), p);
      }
    case Kill(pid) =>
  }

  lemma IdleGoneSleeper(s: Kernel, p: int)
    requires Inv(s) && s.cur == IDLE && 0 <= p < NPROC && s.procs[p].state == SLEEPING && p != s.cur && !IsIdle(p)
    ensures |IdleGone(s).procs| == NPROC && |IdleGone(s).q| == LEVELS && IdleGone(s).procs[p] == s.procs[p]
  {
    hide CurrentHeads, FamilyOk, PidsOk, WaitersOk, ForksOk, SlicesOk, FixedOk;
    PickQueued(s);
  }

  // ---------------------------------------------------------------- going to sleep

  /** The current process becomes x and leaves its queue, and the head of the highest level runs. */
  ghost predicate StepsDown(s: Kernel, t: Kernel, x: Proc) {
    && |s.procs| == |t.procs| == NPROC && |s.q| == |t.q| == LEVELS && t.np == s.np && t.nextpid == s.nextpid
    && 0 <= s.cur < NPROC && 0 <= s.procs[s.cur].rq < LEVELS && t.cur != s.cur && HeadOfAll(t.q, t.cur)
    && t.procs[s.cur] == x
    && (forall p {:trigger t.procs[p]} :: 0 <= p < NPROC && p != s.cur ==>
         t.procs[p] == if p == t.cur then s.procs[p].(state := RUNNING) else s.procs[p])
    && (forall l {:trigger t.q[l]} :: 0 <= l < LEVELS ==>
         s.q[l] == if l == s.procs[s.cur].rq then [s.cur] + t.q[l] else t.q[l])
  }

  /** The current process goes to sleep on chan. */
  ghost predicate FallsAsleep(s: Kernel, t: Kernel, chan: Chan) {
    0 <= s.cur < |s.procs| && StepsDown(s, t, s.procs[s.cur].(state := SLEEPING, chan := chan))
  }

  lemma BlockGives(s: Kernel, x: Proc)
    requires Shape(s) && QueuesExact(s) && CurrentHeads(s) && s.cur != IDLE && x.state != RUNNABLE && x.state != RUNNING
    ensures 0 <= s.procs[s.cur].rq < LEVELS && s.q[s.procs[s.cur].rq] != [] && StepsDown(s, Block(s, x), x)
  {
    hide QueuesExact, CurrentHeads;
    CurrentQueued(s);
    DropKeeps(s, s.cur, x);
    PickQueued(DropHead(WithProc(s, s.cur, x), s.procs[s.cur].rq));
  }

  /** sleep(a): exactly the current process goes to sleep, on a. */
  lemma SleepStep(s: Kernel, a: int)
    requires Inv(s) && Enabled(s, Sleep(a)) && !Panics(s, Sleep(a))
    ensures FallsAsleep(s, Step(s, Sleep(a)), Address(a))
  {
    hide QueuesExact, CurrentHeads, FamilyOk, PidsOk, WaitersOk, ForksOk, FixedOk, SlicesOk, Block, LeavesStuck,
      StepsDown;
    BlockGives(s, s.procs[s.cur].(chan := Address(a), state := SLEEPING));
  }

  predicate IsZombieChild(s: Kernel, c: int) {
    0 <= c < |s.procs| && s.procs[c].state == ZOMBIE && s.procs[c].parent == s.cur
  }

  /** wait frees the first zombie child of the table, fails without children or when killed, and otherwise sleeps. */
  lemma WaitStep(s: Kernel)
    requires Inv(s) && Enabled(s, Wait) && !Panics(s, Wait)
    ensures var t := Step(s, Wait);
      if exists c :: IsZombieChild(s, c) then
        exists c :: IsZombieChild(s, c) && (forall k :: IsZombieChild(s, k) ==> c <= k)
          && t == s.(procs := s.procs[c := s.procs[c].(state := UNUSED, pid := 0, parent := NIL)])
      else if s.procs[s.cur].killed || forall c {:trigger s.procs[c]} :: 0 <= c < NPROC ==>
        s.procs[c].parent != s.cur then t == s
      else FallsAsleep(s, t, OfProc(s.cur))
  {
    hide QueuesExact, CurrentHeads, PidsOk, WaitersOk, ForksOk, FixedOk, SlicesOk, Block, LeavesStuck, StepsDown;
    var c := FindZombie(s.procs, s.cur, 0);
    if c != NIL {
      assert IsZombieChild(s, c);
      assert forall k :: IsZombieChild(s, k) ==> ZombieOf(s.procs[k], s.cur);
    } else {
      assert forall k {:trigger s.procs[k]} :: 0 <= k < NPROC ==> !ZombieOf(s.procs[k], s.cur);
      assert forall k {:trigger s.procs[k]} :: 0 <= k < NPROC && s.procs[k].parent == s.cur ==>
        ChildOf(s.procs[k], s.cur);
      BlockGives(s, s.procs[s.cur].(chan := OfProc(s.cur), state := SLEEPING));
    }
  }

  // ---------------------------------------------------------------- exit

  lemma OrphanedRest(s: Kernel)
    requires Inv(s) && s.cur != IDLE && s.cur != INIT && s.np[s.cur] == NIL
    ensures var t := Orphaned(s);
      && |t.procs| == NPROC && |t.q| == LEVELS && t.cur == s.cur && t.np == s.np && t.nextpid == s.nextpid
      && t.procs[s.cur] == s.procs[s.cur] && t.q[1] == s.q[1] && t.q[2] == s.q[2] && s.q[0] <= t.q[0]
  {
    hide QueuesExact, PidsOk, WaitersOk, ForksOk, SlicesOk, FixedOk;
  }

  /** exit of a user process, record by record; on the top level only woken processes join, behind all others. */
  lemma ExitStep(s: Kernel)
    requires Inv(s) && Enabled(s, Exit) && !Panics(s, Exit) && s.cur != IDLE
    ensures var t := Step(s, Exit);
      && |t.procs| == NPROC && |t.q| == LEVELS && t.np == s.np && t.nextpid == s.nextpid
      && t.procs[s.cur] == s.procs[s.cur].(state := ZOMBIE, killed := false) && HeadOfAll(t.q, t.cur)
      && (forall p {:trigger t.procs[p]} :: 0 <= p < NPROC && p != s.cur ==>
           t.procs[p] == var y := AfterExit(s, s.procs[p]); if p == t.cur then y.(state := RUNNING) else y)
      && forall l {:trigger t.q[l]} :: 0 <= l < LEVELS ==>
        var rest := if l == s.procs[s.cur].rq && s.q[l] != [] then s.q[l][1..] else s.q[l];
        rest <= t.q[l] && (l > 0 ==> rest == t.q[l])
  {
    hide QueuesExact, CurrentHeads, FamilyOk, PidsOk, WaitersOk, ForksOk, SlicesOk, FixedOk, LeavesStuck, Orphaned,
      Block, AfterExit;
    OrphanedKeeps(s);
    OrphanedRest(s);
    var u := Orphaned(s);
    forall p | 0 <= p < NPROC && p != s.cur
      ensures u.procs[p] == AfterExit(s, s.procs[p])
    {
      OrphanedAt(s, p);
    }
    BlockGives(u, u.procs[u.cur].(killed := false, state := ZOMBIE));
    CurrentQueued(s);
  }

  // ---------------------------------------------------------------- over whole runs

  lemma RunLast(es: seq<Event>, e: Event)
    requires Possible(es + [e])
    ensures Possible(es) && Enabled(StateAfter(es), e) && !Panics(StateAfter(es), e)
    ensures StateAfter(es + [e]) == Step(StateAfter(es), e)
  {
    hide Inv, Enabled, Panics, Step;
    assert (es + [e])[..|es|] == es;
  }

  lemma {:induction false} PrefixPossible(es: seq<Event>, k: nat)
    requires Possible(es) && k <= |es|
    ensures Possible(es[..k])
    decreases |es|
  {
    hide Inv, Enabled, Panics, Step;
    if k == |es| {
      assert es[..k] == es;
    } else {
      PrefixPossible(es[..|es| - 1], k);
      assert es[..|es| - 1][..k] == es[..k];
    }
  }

  /** No event of the run from position k on wakes who sleeps on chan. */
  ghost predicate NoneWakes(es: seq<Event>, k: nat, chan: Chan)
    requires k <= |es| && Possible(es)
    decreases |es|
  {
    |es| == k || (var before := es[..|es| - 1];
      NoneWakes(before, k, chan) && !Wakes(StateAfter(before), es[|es| - 1], chan))
  }

  ghost predicate SleepsIn(s: Kernel, p: int, chan: Chan) {
    0 <= p < |s.procs| && SleepsOn(s.procs[p], chan)
  }

  lemma SleepsStill(s: Kernel, e: Event, p: int, chan: Chan)
    requires Inv(s) && Enabled(s, e) && !Panics(s, e) && SleepsIn(s, p, chan)
    ensures SleepsIn(Step(s, e), p, chan) <==> !Wakes(s, e, chan)
  {
    ShapeOf(s);
    hide Inv, Enabled, Panics, Step, Wakes;
    SleeperStep(s, e, p);
  }

  /** In every run a sleeper is still asleep on its channel after every event if and only if none has woken it. */
  lemma {:induction false} SleepsOnward(es: seq<Event>, k: nat, p: int, chan: Chan)
    requires Possible(es) && k <= |es| && Possible(es[..k]) && SleepsIn(StateAfter(es[..k]), p, chan)
    ensures NoneWakes(es, k, chan) <==> AsleepThroughout(es, k, p, chan)
    decreases |es|
  {
    hide Inv, Enabled, Panics, Step, SleepsIn, Wakes;
    if |es| == k {
      assert es[..k] == es;
    } else {
      var before, e := es[..|es| - 1], es[|es| - 1];
      assert before[..k] == es[..k];
      SleepsOnward(before, k, p, chan);
      if NoneWakes(before, k, chan) {
        SleepsStill(StateAfter(before), e, p, chan);
      }
    }
  }

  /** p sleeps on chan in every state of the run from position k on. */
  ghost predicate AsleepThroughout(es: seq<Event>, k: nat, p: int, chan: Chan)
    requires k <= |es| && Possible(es)
    ensures AsleepThroughout(es, k, p, chan) ==> SleepsIn(StateAfter(es), p, chan)
    decreases |es|
  {
    SleepsIn(StateAfter(es), p, chan) && (|es| == k || AsleepThroughout(es[..|es| - 1], k, p, chan))
  }

  /** Only wakeup of an address wakes a sleeper on it: exit wakes parents in wait alone. */
  lemma {:induction false} OnlyWakeup(es: seq<Event>, k: nat, a: int)
    requires Possible(es) && k <= |es| && Wakeup(a) !in es[k..]
    ensures NoneWakes(es, k, Address(a))
    decreases |es|
  {
    hide Inv, Enabled, Panics, Step;
    if |es| > k {
      var before := es[..|es| - 1];
      assert es[k..] == before[k..] + [es[|es| - 1]];
      OnlyWakeup(before, k, a);
    }
  }

  lemma SleepIn(s: Kernel, a: int)
    requires Inv(s) && Enabled(s, Sleep(a)) && !Panics(s, Sleep(a))
    ensures SleepsIn(Step(s, Sleep(a)), s.cur, Address(a))
  {
    hide Inv, Enabled, Panics, Step;
    SleepStep(s, a);
  }

  /**
   In every run a process that has called sleep(a) sleeps on a up to the first wakeup(a), which can come at any
   time and makes it runnable on the top level.
   */
  lemma SleepsUntilWakeup(es: seq<Event>, k: nat, a: int)
    requires Possible(es) && k < |es| && es[k] == Sleep(a) && Wakeup(a) !in es[k..]
    ensures Possible(es[..k]) && Possible(es + [Wakeup(a)])
    ensures var p := StateAfter(es[..k]).cur;
      && AsleepThroughout(es, k + 1, p, Address(a))
      && var t := StateAfter(es + [Wakeup(a)]);
        0 <= p < |t.procs| && |t.q| == LEVELS && t.procs[p].state == RUNNABLE && t.procs[p].rq == 0 && p in t.q[0]
  {
    hide Inv, Enabled, Panics, Step, Possible, StateAfter;
    PrefixPossible(es, k);
    PrefixPossible(es, k + 1);
    assert es[..k + 1] == es[..k] + [Sleep(a)];
    RunLast(es[..k], Sleep(a));
    SleepIn(StateAfter(es[..k]), a);
    assert es[k + 1..] == es[k..][1..];
    OnlyWakeup(es, k + 1, a);
    var p := StateAfter(es[..k]).cur;
    SleepsOnward(es, k + 1, p, Address(a));
    WakeupExactly(es, a);
  }
}
