/** Who is born killed: kill marks any slot with the pid, and allocproc does not clear the mark (proc.c). */
module SchedKills {
  import opened ProcTable
  import opened SchedSpec
  import opened SchedProofs
  import opened SchedRuns
  import opened SchedPanics

  /** Only a process that is asleep, runnable or running is marked as killed. */
  predicate Unmarked(procs: seq<Proc>) {
    forall p {:trigger procs[p]} :: 0 <= p < |procs| && procs[p].killed ==> Alive(procs[p])
  }

  /** kill finds a slot that is unused, half-made or a zombie; an unused one has pid 0. */
  predicate MarksDead(s: Kernel, e: Event) {
    e.Kill? && var p := FindPid(s.procs, e.pid, 0); p != NIL && !Alive(s.procs[p])
  }

  /** kill finds slot c. */
  predicate KillFinds(s: Kernel, e: Event, c: int) {
    e.Kill? && FindPid(s.procs, e.pid, 0) == c
  }

  /** Only slot gone has lost its mark, and only its process has stopped being alive. */
  ghost predicate SameMarks(before: seq<Proc>, after: seq<Proc>, gone: int) {
    |before| == |after| && forall p {:trigger after[p]} :: 0 <= p < |after| ==>
      && (after[p].killed <==> before[p].killed && p != gone)
      && (Alive(before[p]) && !Alive(after[p]) ==> p == gone)
  }

  // ---------------------------------------------------------------- one step

  lemma DispatchMarks(before: seq<Proc>, s: Kernel, gone: int)
    requires Shape(s) && SameMarks(before, s.procs, gone)
    ensures SameMarks(before, Dispatch(s).procs, gone)
  {
  }

  lemma BlockMarks(before: seq<Proc>, s: Kernel, x: Proc, gone: int)
    requires Shape(s) && QueuesExact(s) && CurrentHeads(s) && s.cur != IDLE && SameMarks(before, s.procs, NIL)
    requires x.killed == (before[s.cur].killed && s.cur != gone) && (gone == NIL || gone == s.cur)
    requires x.state != RUNNABLE && x.state != RUNNING && (x.state == SLEEPING || gone == s.cur)
    ensures 0 <= s.procs[s.cur].rq < LEVELS && s.q[s.procs[s.cur].rq] != []
    ensures SameMarks(before, Block(s, x).procs, gone)
  {
    hide QueuesExact, CurrentHeads, Dispatch;
    CurrentQueued(s);
    DropKeeps(s, s.cur, x);
    DispatchMarks(before, DropHead(WithProc(s, s.cur, x), s.procs[s.cur].rq), gone);
  }

  lemma TickMarks(s: Kernel)
    requires Inv(s)
    ensures s.cur == IDLE ==> Shape(IdleYielded(s)) && SameMarks(s.procs, TickIdle(s).procs, NIL)
    ensures s.cur != IDLE ==>
      0 <= s.procs[s.cur].rq < LEVELS && s.q[s.procs[s.cur].rq] != [] && SameMarks(s.procs, TickUser(s).procs, NIL)
  {
    hide QueuesExact, CurrentHeads, FamilyOk, PidsOk, WaitersOk, ForksOk, SlicesOk, FixedOk, Dispatch, Demoted;
    if s.cur == IDLE {
      IdleYieldedQueues(s);
      DispatchMarks(s.procs, IdleYielded(s), NIL);
    } else {
      CurrentQueued(s);
      if s.procs[s.cur].rq < 2 && s.procs[s.cur].timeslice == 1 {
        var u := DemotedFrom(s);
        DispatchMarks(s.procs, u, NIL);
      }
    }
  }

  lemma CurrentRuns(s: Kernel)
    requires Inv(s)
    ensures Alive(s.procs[s.cur])
  {
    hide QueuesExact, FamilyOk, PidsOk, WaitersOk, ForksOk, SlicesOk;
  }

  lemma ExitMarks(s: Kernel)
    requires Inv(s) && s.cur != IDLE && s.cur != INIT && s.np[s.cur] == NIL && !LeavesStuck(Orphaned(s))
    ensures var t := Orphaned(s);
      Shape(t) && 0 <= t.procs[t.cur].rq < LEVELS && t.q[t.procs[t.cur].rq] != []
        && SameMarks(s.procs, Zombie(t).procs, s.cur)
  {
    hide QueuesExact, CurrentHeads, FamilyOk, PidsOk, WaitersOk, ForksOk, SlicesOk, FixedOk, Block, LeavesStuck;
    OrphanedKeeps(s);
    CurrentRuns(s);
    var t := Orphaned(s);
    assert SameMarks(s.procs, t.procs, NIL);
    BlockMarks(s.procs, t, t.procs[t.cur].(killed := false, state := ZOMBIE), t.cur);
  }

  lemma OtherMarks(s: Kernel, e: Event)
    requires Inv(s) && Enabled(s, e) && !Panics(s, e) && !e.Kill?
    ensures SameMarks(s.procs, Step(s, e).procs, if e.Exit? then s.cur else NIL)
  {
    hide QueuesExact, CurrentHeads, FamilyOk, PidsOk, WaitersOk, ForksOk, SlicesOk, FixedOk;
    hide TickIdle, TickUser, Orphaned, Zombie, Block, LeavesStuck, Dispatch;
    CurrentRuns(s);
    match e
    case Tick => TickMarks(s);
    case ForkAlloc =>
    case ForkParent => ForkingChild(s);
    case ForkFail => ForkingChild(s);
    case ForkFinish => ForkingChild(s);
    case Sleep(a) => BlockMarks(s.procs, s, s.procs[s.cur].(chan := Address(a), state := SLEEPING), NIL);
    case Wakeup(b) =>
    case Resume =>
    case Exit =>
      if s.cur != IDLE {
        ExitMarks(s);
      } else {
        DispatchMarks(s.procs, WithProc(s, s.cur, s.procs[s.cur].(killed := false, state := ZOMBIE)), s.cur);
      }
    case Wait =>
      if FindZombie(s.procs, s.cur, 0) == NIL && HasKids(s.procs, s.cur) && !s.procs[s.cur].killed {
        BlockMarks(s.procs, s, s.procs[s.cur].(chan := OfProc(s.cur), state := SLEEPING), NIL);
      }
  }

  /**
   After a step a slot is marked exactly if kill has just found it, or it was marked and its process has not exited;
   one without a living process exactly if kill has just found it or it was so before.
   */
  lemma SlotStep(s: Kernel, e: Event, c: int)
    requires Inv(s) && Enabled(s, e) && !Panics(s, e) && 0 <= c < NPROC
    ensures |Step(s, e).procs| == NPROC
    ensures Step(s, e).procs[c].killed <==>
      KillFinds(s, e, c) || (s.procs[c].killed && !(e.Exit? && s.cur == c))
    ensures var x, y := s.procs[c], Step(s, e).procs[c];
      !Alive(y) ==> (y.killed <==> KillFinds(s, e, c) || (!Alive(x) && x.killed))
  {
    hide QueuesExact, CurrentHeads, FamilyOk, PidsOk, WaitersOk, ForksOk, SlicesOk, FixedOk;
    if e.Kill? {
      KillOnly(s, e.pid, c);
    } else {
      hide Step, Enabled, Panics;
      CurrentRuns(s);
      OtherMarks(s, e);
    }
  }

  lemma KillOnly(s: Kernel, pid: int, c: int)
    requires Shape(s) && 0 <= c < NPROC
    ensures |Killed(s, pid).procs| == NPROC
    ensures Killed(s, pid).procs[c] ==
      if FindPid(s.procs, pid, 0) == c then s.procs[c].(killed := true) else s.procs[c]
  {
  }

  predicate HasPid(s: Kernel, p: int, pid: int) {
    0 <= p < |s.procs| && s.procs[p].pid == pid
  }

  /** kill marks the first slot with the pid, whatever its state, and changes nothing else. */
  lemma KillStep(s: Kernel, pid: int)
    requires Inv(s) && Enabled(s, Kill(pid)) && !Panics(s, Kill(pid))
    ensures var t := Step(s, Kill(pid));
      if exists p :: HasPid(s, p, pid) then
        exists p :: HasPid(s, p, pid) && (forall k :: HasPid(s, k, pid) ==> p <= k) && s.procs[p].state != SLEEPING
          && t == s.(procs := s.procs[p := s.procs[p].(killed := true)])
      else t == s
  {
    hide QueuesExact, CurrentHeads, FamilyOk, PidsOk, WaitersOk, ForksOk, SlicesOk, FixedOk;
    var p := FindPid(s.procs, pid, 0);
    if p != NIL {
      assert HasPid(s, p, pid);
    }
  }

  /** A step leaves a mark on a slot without a living process exactly when it is a kill that finds such a slot. */
  lemma UnmarkedStep(s: Kernel, e: Event)
    requires Inv(s) && Enabled(s, e) && !Panics(s, e) && Unmarked(s.procs)
    ensures Unmarked(Step(s, e).procs) <==> !MarksDead(s, e)
  {
    ShapeFacts(s);
    if e.Kill? {
      var p := FindPid(s.procs, e.pid, 0);
      assert Step(s, e) == Killed(s, e.pid);
      hide Inv, Enabled, Panics, Step;
      assert p != NIL ==> Killed(s, e.pid).procs[p] == s.procs[p].(killed := true);
    } else {
      hide Inv, Enabled, Panics, Step;
      OtherMarks(s, e);
    }
  }

  lemma ShapeFacts(s: Kernel)
    requires Inv(s)
    ensures |s.procs| == NPROC
  {
  }

  /** A child is runnable with the mark its slot had: unkilled in every run without such a kill. */
  lemma BornUnkilled(s: Kernel)
    requires Inv(s) && Enabled(s, ForkFinish)
    ensures 0 <= s.np[s.cur] < NPROC && Forked(s).procs[s.np[s.cur]].killed == s.procs[s.np[s.cur]].killed
    ensures Unmarked(s.procs) ==> !Forked(s).procs[s.np[s.cur]].killed
  {
    hide QueuesExact, CurrentHeads, FamilyOk, PidsOk, WaitersOk, ForksOk, SlicesOk, FixedOk;
    ForkingChild(s);
  }

  ghost predicate NoneMarked(es: seq<Event>)
    requires Possible(es)
    decreases |es|
  {
    es == [] || (var before := es[..|es| - 1]; NoneMarked(before) && !MarksDead(StateAfter(before), es[|es| - 1]))
  }

  lemma {:induction false} UnmarkedRun(es: seq<Event>)
    requires Possible(es) && NoneMarked(es)
    ensures Unmarked(StateAfter(es).procs)
    decreases |es|
  {
    if es != [] {
      hide Inv, Enabled, Panics, Step, MarksDead, Unmarked;
      UnmarkedRun(es[..|es| - 1]);
      UnmarkedStep(StateAfter(es[..|es| - 1]), es[|es| - 1]);
    }
  }

  // ---------------------------------------------------------------- slot by slot

  /** Some kill of the run found slot c after the last moment its process was alive. */
  ghost predicate DeadMarked(es: seq<Event>, c: int)
    requires Possible(es) && 0 <= c < NPROC
    decreases |es|
  {
    es != [] &&
      var before := es[..|es| - 1];
      ShapeFacts(StateAfter(before));
      || KillFinds(StateAfter(before), es[|es| - 1], c)
      || (!Alive(StateAfter(before).procs[c]) && DeadMarked(before, c))
  }

  /** Some kill of the run found slot c after its process last exited. */
  ghost predicate KilledSince(es: seq<Event>, c: int)
    requires Possible(es)
    decreases |es|
  {
    es != [] &&
      var before, e := es[..|es| - 1], es[|es| - 1];
      || KillFinds(StateAfter(before), e, c)
      || (KilledSince(before, c) && !(e.Exit? && StateAfter(before).cur == c))
  }

  /** In every run a slot, its process alive or not, is marked exactly if some kill found it since its last exit. */
  lemma {:induction false} KilledExactly(es: seq<Event>, c: int)
    requires Possible(es) && 0 <= c < NPROC
    ensures |StateAfter(es).procs| == NPROC && (StateAfter(es).procs[c].killed <==> KilledSince(es, c))
    decreases |es|
  {
    ShapeFacts(StateAfter(es));
    if es != [] {
      hide Inv, Enabled, Panics, Step, KillFinds;
      KilledExactly(es[..|es| - 1], c);
      SlotStep(StateAfter(es[..|es| - 1]), es[|es| - 1], c);
    } else {
      BootUnmarked(c);
    }
  }

  /** In every run a slot whose process is not alive is marked exactly if some kill found it since it last was. */
  lemma {:induction false} MarkedExactly(es: seq<Event>, c: int)
    requires Possible(es) && 0 <= c < NPROC
    ensures |StateAfter(es).procs| == NPROC
    ensures !Alive(StateAfter(es).procs[c]) ==> (StateAfter(es).procs[c].killed <==> DeadMarked(es, c))
    decreases |es|
  {
    ShapeFacts(StateAfter(es));
    if es != [] {
      hide Inv, Enabled, Panics, Step, KillFinds;
      MarkedExactly(es[..|es| - 1], c);
      SlotStep(StateAfter(es[..|es| - 1]), es[|es| - 1], c);
    } else {
      BootUnmarked(c);
    }
  }

  lemma BootUnmarked(c: int)
    requires 0 <= c < NPROC
    ensures |Boot().procs| == NPROC && !Boot().procs[c].killed
  {
  }

  /**
   In every run a child is born killed exactly if some kill found its slot after the slot's last process was alive.
   */
  lemma BornKilledExactly(es: seq<Event>)
    requires Possible(es) && Enabled(StateAfter(es), ForkFinish)
    ensures var s := StateAfter(es);
      && 0 <= s.np[s.cur] < NPROC && Forked(s).procs[s.np[s.cur]].state == RUNNABLE
      && (Forked(s).procs[s.np[s.cur]].killed <==> DeadMarked(es, s.np[s.cur]))
  {
    var s := StateAfter(es);
    BornUnkilled(s);
    HalfMade(s);
    hide Inv, Enabled, Forked, DeadMarked;
    MarkedExactly(es, s.np[s.cur]);
  }

  lemma HalfMade(s: Kernel)
    requires Inv(s) && Enabled(s, ForkFinish)
    ensures 0 <= s.np[s.cur] < NPROC && !Alive(s.procs[s.np[s.cur]])
    ensures Forked(s).procs[s.np[s.cur]].state == RUNNABLE
  {
    hide QueuesExact, CurrentHeads, FamilyOk, PidsOk, WaitersOk, SlicesOk, FixedOk;
    ForkingChild(s);
  }

  // ---------------------------------------------------------------- a concrete run

  /** The first slot that is unused after boot, behind the first process and the idle ones. */
  const CHILD: int := 1 + NCPU

  /** The first process is running and kill has marked the unused slot. */
  function Marked(): Kernel {
    Running(false).(procs := Running(false).procs[CHILD := BootProc(CHILD).(killed := true)])
  }

  /** It has allocated the slot for a child. */
  function Halfway(parent: int): Kernel {
    Marked().(procs := Marked().procs[CHILD := BootProc(CHILD).(killed := true, state := EMBRYO, pid := 2 + NCPU,
      parent := parent)],
      np := Marked().np[INIT := CHILD], nextpid := 3 + NCPU)
  }

  lemma MarkSlot(s: Kernel)
    requires s == Running(false) && Inv(s)
    ensures Enabled(s, Kill(0)) && !Panics(s, Kill(0)) && Step(s, Kill(0)) == Marked()
  {
    hide QueuesExact, CurrentHeads, FamilyOk, PidsOk, WaitersOk, ForksOk, FixedOk, SlicesOk;
    assert s.procs[CHILD].pid == 0;
    assert FindPid(s.procs, 0, 0) == CHILD;
  }

  lemma AllocSlot(s: Kernel)
    requires s == Marked() && Inv(s)
    ensures Enabled(s, ForkAlloc) && !Panics(s, ForkAlloc) && Step(s, ForkAlloc) == Halfway(NIL)
  {
    hide QueuesExact, CurrentHeads, FamilyOk, PidsOk, WaitersOk, ForksOk, FixedOk, SlicesOk;
    assert s.procs[CHILD].state == UNUSED;
    assert FindUnused(s.procs, 0) == CHILD;
    assert Step(s, ForkAlloc).procs == Halfway(NIL).procs;
  }

  lemma AdoptSlot(s: Kernel)
    requires s == Halfway(NIL) && Inv(s)
    ensures Enabled(s, ForkParent) && !Panics(s, ForkParent) && Step(s, ForkParent) == Halfway(INIT)
  {
    hide QueuesExact, CurrentHeads, FamilyOk, PidsOk, WaitersOk, ForksOk, FixedOk, SlicesOk;
    assert s.np[s.cur] == CHILD;
    assert Step(s, ForkParent).procs == Halfway(INIT).procs;
  }

  lemma FinishSlot(s: Kernel)
    requires s == Halfway(INIT) && Inv(s)
    ensures Enabled(s, ForkFinish) && !Panics(s, ForkFinish) && Step(s, ForkFinish).q[0] == [INIT, CHILD]
    ensures CHILD < |Step(s, ForkFinish).procs|
    ensures var x := Step(s, ForkFinish).procs[CHILD]; x.killed && x.state == RUNNABLE && x.parent == INIT
  {
    hide QueuesExact, CurrentHeads, FamilyOk, PidsOk, WaitersOk, ForksOk, FixedOk, SlicesOk;
    assert s.np[s.cur] == CHILD;
  }

  lemma HalfwayRun()
    ensures Possible([Tick] + [Kill(0)] + [ForkAlloc])
    ensures StateAfter([Tick] + [Kill(0)] + [ForkAlloc]) == Halfway(NIL)
  {
    hide Inv, Enabled, Panics, Step, Possible, StateAfter, Running, Marked, Halfway;
    TickRun();
    MarkSlot(StateAfter([Tick]));
    PossibleMore([Tick], Kill(0));
    AllocSlot(StateAfter([Tick] + [Kill(0)]));
    PossibleMore([Tick] + [Kill(0)], ForkAlloc);
  }

  /** kill of pid 0 marks the slot of the next child, which is then born killed. */
  lemma BornKilled()
    ensures Possible([Tick] + [Kill(0)] + [ForkAlloc] + [ForkParent] + [ForkFinish])
    ensures var s := StateAfter([Tick] + [Kill(0)] + [ForkAlloc] + [ForkParent] + [ForkFinish]);
      CHILD < |s.procs| && s.procs[CHILD].killed && s.procs[CHILD].state == RUNNABLE && s.procs[CHILD].parent == INIT
  {
    hide Inv, Enabled, Panics, Step, Possible, StateAfter, Halfway;
    HalfwayRun();
    var es := [Tick] + [Kill(0)] + [ForkAlloc];
    AdoptSlot(StateAfter(es));
    PossibleMore(es, ForkParent);
    FinishSlot(StateAfter(es + [ForkParent]));
    PossibleMore(es + [ForkParent], ForkFinish);
  }
}
