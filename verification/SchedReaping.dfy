/** Every exited process is reaped exactly once: exits, reaps and zombies balance in every run. */
module SchedReaping {
  import opened Lists
  import opened ProcTable
  import opened NodePool
  import opened SchedSpec
  import opened SchedProofs
  import opened SchedRuns
  import opened SchedLevels

  /** The pids of the processes that exited during the run, in order. */
  ghost function Exits(es: seq<Event>): (r: seq<int>)
    requires Possible(es)
  {
    if es == [] then []
    else
      var before, e := es[..|es| - 1], es[|es| - 1];
      var s := StateAfter(before);
      Exits(before) + (if e.Exit? then [s.procs[s.cur].pid] else [])
  }

  /** The pids that wait returned during the run, in order. */
  ghost function Reaps(es: seq<Event>): (r: seq<int>)
    requires Possible(es)
  {
    if es == [] then []
    else
      var before, e := es[..|es| - 1], es[|es| - 1];
      var s := StateAfter(before);
      var c := FindZombie(s.procs, s.cur, 0);
      Reaps(before) + (if e.Wait? && c != NIL then [s.procs[c].pid] else [])
  }

  ghost predicate ZombiePid(s: Kernel, pid: int) {
    exists p {:trigger s.procs[p]} :: 0 <= p < |s.procs| && s.procs[p].state == ZOMBIE && s.procs[p].pid == pid
  }

  /**
   Exited pids are the reaped ones and the zombies', without overlap or repetition, and no other live process has
   one.
   */
  ghost predicate Balanced(s: Kernel, exits: seq<int>, reaps: seq<int>) {
    && Distinct(exits) && Distinct(reaps)
    && (forall x :: x in exits ==> x < s.nextpid)
    && (forall x :: x in exits <==> x in reaps || ZombiePid(s, x))
    && (forall x :: x in reaps ==> !ZombiePid(s, x))
    && (forall p {:trigger s.procs[p]} ::
         0 <= p < |s.procs| && s.procs[p].state != UNUSED && s.procs[p].state != ZOMBIE ==> s.procs[p].pid !in exits)
  }

  /** Same pid, and neither created, exited nor reaped. */
  predicate Settled(x: Proc, y: Proc) {
    y.pid == x.pid && (y.state == ZOMBIE <==> x.state == ZOMBIE) && (y.state == UNUSED <==> x.state == UNUSED)
  }

  ghost predicate SettledAt(s: Kernel, t: Kernel, p: int) {
    0 <= p < |s.procs| && p < |t.procs| && Settled(s.procs[p], t.procs[p])
  }

  lemma DispatchSettled(s: Kernel, p: int)
    requires Shape(s) && QueuesExact(s) && 0 <= p < NPROC && !Stuck(s)
    requires Alive(s.procs[IDLE]) || s.procs[IDLE].state == ZOMBIE
    ensures SettledAt(s, Dispatch(s), p)
  {
    PickQueued(s);
  }

  lemma BlockSettled(s: Kernel, x: Proc, p: int)
    requires Shape(s) && QueuesExact(s) && CurrentHeads(s) && FixedOk(s) && s.cur != IDLE && 0 <= p < NPROC
      && !LeavesStuck(s)
    requires x.state != RUNNABLE && x.state != RUNNING && x.pid == s.procs[s.cur].pid
    ensures 0 <= s.procs[s.cur].rq < LEVELS && s.q[s.procs[s.cur].rq] != []
    ensures p != s.cur || x.state == SLEEPING ==> SettledAt(s, Block(s, x), p)
    ensures var t := Block(s, x); |t.procs| == NPROC && t.nextpid == s.nextpid && t.procs[s.cur] == x
  {
    hide QueuesExact, Dispatch;
    CurrentQueued(s);
    DropKeeps(s, s.cur, x);
    var t := DropHead(WithProc(s, s.cur, x), s.procs[s.cur].rq);
    DispatchSettled(t, p);
    PickNot(t, s.cur);
  }

  lemma PickNot(s: Kernel, p: int)
    requires Shape(s) && QueuesExact(s) && 0 <= p < NPROC && !IsIdle(p) && !Queued(s, p)
    ensures var t := Dispatch(s); |t.procs| == NPROC && t.procs[p] == s.procs[p] && t.nextpid == s.nextpid
  {
    PickQueued(s);
  }

  lemma TickSettled(s: Kernel, p: int)
    requires Inv(s) && 0 <= p < NPROC
    ensures s.cur == IDLE ==> Shape(IdleYielded(s)) && SettledAt(s, TickIdle(s), p) && TickIdle(s).nextpid == s.nextpid
    ensures s.cur != IDLE ==> 0 <= s.procs[s.cur].rq < LEVELS && s.q[s.procs[s.cur].rq] != []
    ensures s.cur != IDLE ==> SettledAt(s, TickUser(s), p) && TickUser(s).nextpid == s.nextpid
  {
    hide QueuesExact, CurrentHeads, FamilyOk, PidsOk, WaitersOk, ForksOk, SlicesOk, Dispatch, Demoted;
    assert Alive(s.procs[IDLE]) || s.procs[IDLE].state == ZOMBIE;
    if s.cur == IDLE {
      CurrentAlive(s);
      IdleYieldedQueues(s);
      var t := IdleYielded(s);
      DispatchSettled(t, p);
      DispatchNextpid(t);
    } else {
      CurrentQueued(s);
      if s.procs[s.cur].rq < 2 && s.procs[s.cur].timeslice == 1 {
        var u := DemotedFrom(s);
        DispatchSettled(u, p);
        DispatchNextpid(u);
      }
    }
  }

  lemma DispatchNextpid(s: Kernel)
    requires Shape(s)
    ensures Dispatch(s).nextpid == s.nextpid
  {
  }

  lemma ExitSettled(s: Kernel, p: int)
    requires Inv(s) && s.cur != IDLE && s.cur != INIT && s.np[s.cur] == NIL && 0 <= p < NPROC
      && !LeavesStuck(Orphaned(s))
    ensures var t := Orphaned(s);
      && Shape(t) && 0 <= t.procs[t.cur].rq < LEVELS && t.q[t.procs[t.cur].rq] != []
      && Zombie(t).nextpid == s.nextpid && |Zombie(t).procs| == NPROC
      && (p != s.cur ==> SettledAt(s, Zombie(t), p))
      && (p == s.cur ==> Zombie(t).procs[p].state == ZOMBIE && Zombie(t).procs[p].pid == s.procs[p].pid)
  {
    hide QueuesExact, CurrentHeads, FamilyOk, PidsOk, WaitersOk, ForksOk, FixedOk, SlicesOk, Block;
    OrphanedKeeps(s);
    var t := Orphaned(s);
    CurrentQueued(t);
    assert SettledAt(s, t, p);
    BlockSettled(t, t.procs[t.cur].(killed := false, state := ZOMBIE), p);
  }

  lemma IdleGoneSettled(s: Kernel, p: int)
    requires Inv(s) && s.cur == IDLE && 0 <= p < NPROC && Pick(s.q) != IDLE
    ensures IdleGone(s).nextpid == s.nextpid && |IdleGone(s).procs| == NPROC
    ensures p != s.cur ==> SettledAt(s, IdleGone(s), p)
    ensures p == s.cur ==> IdleGone(s).procs[p].state == ZOMBIE && IdleGone(s).procs[p].pid == s.procs[p].pid
  {
    PickQueued(s);
  }

  lemma CurrentAlive(s: Kernel)
    requires Shape(s) && CurrentHeads(s)
    ensures Alive(s.procs[s.cur])
  {
  }

  /** The events that create, bury or turn a process into a zombie. */
  ghost predicate Counts(s: Kernel, e: Event)
    requires Shape(s)
  {
    e.ForkAlloc? || e.ForkFail? || e.Exit? || (e.Wait? && FindZombie(s.procs, s.cur, 0) != NIL)
  }

  lemma StepSettled(s: Kernel, e: Event, p: int)
    requires Inv(s) && Enabled(s, e) && !Panics(s, e) && !Counts(s, e) && 0 <= p < NPROC
    ensures SettledAt(s, Step(s, e), p) && Step(s, e).nextpid == s.nextpid
  {
    hide QueuesExact, CurrentHeads, FamilyOk, PidsOk, WaitersOk, ForksOk, FixedOk, SlicesOk;
    hide TickIdle, TickUser, Block;
    match e
    case Tick => TickSettled(s, p);
    case ForkParent => ForkingChild(s);
    case ForkFinish => ForkingChild(s);
    case Sleep(a) => BlockSettled(s, s.procs[s.cur].(chan := Address(a), state := SLEEPING), p);
    case Wakeup(b) =>
    case Resume =>
    case Wait =>
      if HasKids(s.procs, s.cur) && !s.procs[s.cur].killed {
        BlockSettled(s, s.procs[s.cur].(chan := OfProc(s.cur), state := SLEEPING), p);
      }
    case Kill(pid) =>
  }

  // ---------------------------------------------------------------- the balance

  lemma SettledBalanced(s: Kernel, t: Kernel, exits: seq<int>, reaps: seq<int>)
    requires |s.procs| == |t.procs| && t.nextpid == s.nextpid && Balanced(s, exits, reaps)
    requires forall p {:trigger t.procs[p]} {:trigger s.procs[p]} :: 0 <= p < |s.procs| ==>
      Settled(s.procs[p], t.procs[p])
    ensures Balanced(t, exits, reaps)
  {
  }

  lemma ZombiesSame(s: Kernel, t: Kernel, i: int)
    requires |s.procs| == |t.procs| && 0 <= i < |s.procs| && t.procs == s.procs[i := t.procs[i]]
    requires s.procs[i].state != ZOMBIE && t.procs[i].state != ZOMBIE
    ensures forall x :: ZombiePid(s, x) <==> ZombiePid(t, x)
  {
    assert forall p {:trigger s.procs[p]} {:trigger t.procs[p]} :: 0 <= p < |s.procs| ==>
      p == i || t.procs[p] == s.procs[p];
  }

  lemma AllocBalanced(s: Kernel, exits: seq<int>, reaps: seq<int>)
    requires Inv(s) && Balanced(s, exits, reaps)
    ensures Balanced(Allocated(s), exits, reaps)
  {
    hide QueuesExact, CurrentHeads, FamilyOk, PidsOk, WaitersOk, ForksOk, FixedOk, SlicesOk;
    var i := FindUnused(s.procs, 0);
    if i != NIL {
      ZombiesSame(s, Allocated(s), i);
    }
  }

  lemma FailBalanced(s: Kernel, exits: seq<int>, reaps: seq<int>)
    requires Inv(s) && s.np[s.cur] != NIL && Balanced(s, exits, reaps)
    ensures 0 <= s.np[s.cur] < NPROC && Balanced(Abandoned(s), exits, reaps)
  {
    hide QueuesExact, CurrentHeads, FamilyOk, PidsOk, WaitersOk, ForksOk, FixedOk, SlicesOk;
    ForkingChild(s);
    ZombiesSame(s, Abandoned(s), s.np[s.cur]);
  }

  /** An exit adds a pid that nobody has exited with before. */
  lemma ExitBalanced(s: Kernel, t: Kernel, exits: seq<int>, reaps: seq<int>)
    requires Shape(s) && PidsOk(s) && Balanced(s, exits, reaps) && Alive(s.procs[s.cur])
    requires |t.procs| == NPROC && t.nextpid == s.nextpid
    requires forall p {:trigger t.procs[p]} {:trigger s.procs[p]} :: 0 <= p < NPROC && p != s.cur ==>
      Settled(s.procs[p], t.procs[p])
    requires t.procs[s.cur].state == ZOMBIE && t.procs[s.cur].pid == s.procs[s.cur].pid
    ensures Balanced(t, exits + [s.procs[s.cur].pid], reaps)
  {
    var pid := s.procs[s.cur].pid;
    forall x
      ensures ZombiePid(t, x) <==> ZombiePid(s, x) || x == pid
    {
      if ZombiePid(t, x) && x != pid {
        var p :| 0 <= p < NPROC && t.procs[p].state == ZOMBIE && t.procs[p].pid == x;
        assert s.procs[p].state == ZOMBIE;
      }
      if ZombiePid(s, x) {
        var p :| 0 <= p < NPROC && s.procs[p].state == ZOMBIE && s.procs[p].pid == x;
        assert t.procs[p].state == ZOMBIE;
      }
      assert t.procs[s.cur].state == ZOMBIE;
    }
  }

  /** A reap moves one pid from the zombies to the reaped. */
  lemma ReapBalanced(s: Kernel, c: int, exits: seq<int>, reaps: seq<int>)
    requires Shape(s) && PidsOk(s) && Balanced(s, exits, reaps) && 0 <= c < NPROC && s.procs[c].state == ZOMBIE
    ensures Balanced(Reaped(s, c), exits, reaps + [s.procs[c].pid])
  {
    var pid, t := s.procs[c].pid, Reaped(s, c);
    forall x
      ensures ZombiePid(t, x) <==> ZombiePid(s, x) && x != pid
    {
      if ZombiePid(t, x) {
        var p :| 0 <= p < NPROC && t.procs[p].state == ZOMBIE && t.procs[p].pid == x;
        assert s.procs[p].state == ZOMBIE && p != c;
      }
      if ZombiePid(s, x) && x != pid {
        var p :| 0 <= p < NPROC && s.procs[p].state == ZOMBIE && s.procs[p].pid == x;
        assert t.procs[p].state == ZOMBIE;
      }
    }
    assert ZombiePid(s, pid);
  }

  /** In every run, the exited pids are exactly the reaped ones and those of the current zombies, each once. */
  lemma {:induction false} ExitsAndReapsBalance(es: seq<Event>)
    requires Possible(es)
    ensures Balanced(StateAfter(es), Exits(es), Reaps(es))
    decreases |es|
  {
    if es == [] {
      return;
    }
    hide QueuesExact, CurrentHeads, FamilyOk, PidsOk, WaitersOk, ForksOk, FixedOk, SlicesOk, Enabled, Panics, Balanced,
      Step;
    var before, e := es[..|es| - 1], es[|es| - 1];
    ExitsAndReapsBalance(before);
    StepBalanced(StateAfter(before), e, Exits(before), Reaps(before));
  }

  lemma StepBalanced(s: Kernel, e: Event, exits: seq<int>, reaps: seq<int>)
    requires Inv(s) && Enabled(s, e) && !Panics(s, e) && Balanced(s, exits, reaps)
    ensures var c := FindZombie(s.procs, s.cur, 0);
      Balanced(Step(s, e),
               exits + (if e.Exit? then [s.procs[s.cur].pid] else []),
               reaps + (if e.Wait? && c != NIL then [s.procs[c].pid] else []))
  {
    hide QueuesExact, CurrentHeads, FamilyOk, PidsOk, WaitersOk, ForksOk, FixedOk, SlicesOk, Balanced;
    hide Allocated, Abandoned, Reaped, Zombie, Orphaned;
    if !Counts(s, e) {
      hide Step;
      StepKeeps(s, e);
      assert exits + [] == exits && reaps + [] == reaps;
      StepSettled(s, e, 0);
      var t := Step(s, e);
      forall p | 0 <= p < NPROC
        ensures Settled(s.procs[p], t.procs[p])
      {
        StepSettled(s, e, p);
      }
      SettledBalanced(s, t, exits, reaps);
    } else {
      assert exits + [] == exits && reaps + [] == reaps;
      match e
      case ForkAlloc => AllocBalanced(s, exits, reaps);
      case ForkFail => FailBalanced(s, exits, reaps);
      case Wait => ReapBalanced(s, FindZombie(s.procs, s.cur, 0), exits, reaps);
      case Exit =>
        CurrentAlive(s);
        forall p | 0 <= p < NPROC
          ensures p != s.cur ==> SettledAt(s, Step(s, e), p)
          ensures Step(s, e).nextpid == s.nextpid && |Step(s, e).procs| == NPROC
          ensures p == s.cur ==> Step(s, e).procs[p].state == ZOMBIE && Step(s, e).procs[p].pid == s.procs[p].pid
        {
          if s.cur == IDLE { IdleGoneSettled(s, p); } else { ExitSettled(s, p); }
        }
        ExitBalanced(s, Step(s, e), exits, reaps);
    }
  }
}
