/**
 Processes that do nothing but run sink to the third level, as many of them as there are slots (sched_MLFQ.c,
 proc.c).
 */
module SchedSinking {
  import opened Lists
  import opened ProcTable
  import opened NodePool
  import opened SchedSpec
  import opened SchedProofs
  import opened SchedRuns
  import opened SchedPanics

  // ---------------------------------------------------------------- ticks

  /** The current process is the one schedule would pick. */
  predicate Top(s: Kernel) {
    |s.q| == LEVELS && |s.procs| == NPROC && 0 <= s.cur < NPROC && s.cur != IDLE && s.cur == Pick(s.q)
  }

  /**
   A tick brings the process on top of the first two levels nearer to the third and leaves the number of processes
   alone.
   */
  lemma TickSinks(s: Kernel)
    requires Inv(s) && Top(s) && (s.q[0] != [] || s.q[1] != [])
    ensures Enabled(s, Tick) && !Panics(s, Tick) && Top(Step(s, Tick)) && Load(Step(s, Tick)) == Load(s)
    ensures 0 < s.procs[s.cur].timeslice
    ensures var t := Step(s, Tick);
      || |t.q[0]| < |s.q[0]|
      || (t.q[0] == s.q[0] && |t.q[1]| < |s.q[1]|)
      || (t.q == s.q && t.procs[t.cur].timeslice < s.procs[s.cur].timeslice)
  {
    hide FamilyOk, PidsOk, WaitersOk, ForksOk, FixedOk;
    var l := if s.q[0] != [] then 0 else 1;
    assert s.cur in s.q[l];
    hide QueuesExact, CurrentHeads, InRange;
    CurrentQueued(s);
    PanicsExactly(s, Tick);
    hide Panics;
    StepKeeps(s, Tick);
    if s.procs[s.cur].timeslice == 1 {
      DemotedPick(s);
    }
  }

  lemma DemotedPick(s: Kernel)
    requires Inv(s) && Top(s) && 0 <= s.procs[s.cur].rq < 2 && s.q[s.procs[s.cur].rq] != []
    ensures var l := s.procs[s.cur].rq;
      && Demoted(s).q == s.q[l := s.q[l][1..]][l + 1 := s.q[l + 1] + [s.cur]]
      && Demoted(s).cur == Pick(Demoted(s).q) && Demoted(s).cur != IDLE && |Demoted(s).procs| == NPROC
         && 0 <= Demoted(s).cur < NPROC
  {
    hide FamilyOk, PidsOk, WaitersOk, ForksOk, CurrentHeads;
    var u := DemotedFrom(s);
    PickQueued(u);
  }

  ghost predicate OnlyTicks(es: seq<Event>) {
    forall i {:trigger es[i]} :: 0 <= i < |es| ==> es[i] == Tick
  }

  /** With nothing but ticks every runnable process comes to the third level. */
  lemma {:induction false} Sink(es: seq<Event>, s: Kernel) returns (more: seq<Event>)
    requires Possible(es) && s == StateAfter(es) && Top(s)
    ensures OnlyTicks(more) && Possible(es + more)
    ensures var t := StateAfter(es + more); |t.q| == LEVELS && t.q[0] == [] && t.q[1] == [] && |t.q[2]| == Load(s)
    decreases |s.q[0]|, |s.q[1]|, s.procs[s.cur].timeslice
  {
    hide Inv, Enabled, Panics, Step, Possible;
    if s.q[0] == [] && s.q[1] == [] {
      more := [];
      assert es + more == es;
    } else {
      TickSinks(s);
      PossibleMore(es, Tick);
      var rest := Sink(es + [Tick], Step(s, Tick));
      more := [Tick] + rest;
      assert es + [Tick] + rest == es + more;
    }
  }

  // ---------------------------------------------------------------- forks

  /** The slots from n on are unused. */
  ghost predicate Spare(s: Kernel, n: nat) {
    |s.procs| == NPROC && forall p {:trigger s.procs[p]} :: n <= p < NPROC ==> s.procs[p].state == UNUSED
  }

  /** The current process is on the top level, outside fork, with nobody below. */
  ghost predicate Ready(s: Kernel, n: nat) {
    && Top(s) && |s.np| == NPROC && s.np[s.cur] == NIL && s.q[0] != [] && s.q[1] == [] && s.q[2] == []
    && Spare(s, n)
  }

  lemma AllocReady(s: Kernel, n: nat) returns (t: Kernel)
    requires Inv(s) && Ready(s, n) && n < NPROC
    ensures Enabled(s, ForkAlloc) && !Panics(s, ForkAlloc) && t == Step(s, ForkAlloc)
    ensures t.cur == s.cur && t.q == s.q && |t.np| == NPROC && t.np[t.cur] != NIL && Spare(t, n + 1)
  {
    hide QueuesExact, CurrentHeads, FamilyOk, PidsOk, WaitersOk, ForksOk, FixedOk, SlicesOk;
    assert s.procs[n].state == UNUSED;
    t := Step(s, ForkAlloc);
  }

  lemma AdoptReady(s: Kernel, n: nat) returns (t: Kernel)
    requires Inv(s) && s.cur != IDLE && s.np[s.cur] != NIL && Spare(s, n + 1)
    ensures Enabled(s, ForkParent) && !Panics(s, ForkParent) && t == Step(s, ForkParent)
    ensures t.cur == s.cur && t.q == s.q && t.np == s.np && 0 <= t.np[t.cur] <= n && Spare(t, n + 1)
    ensures t.procs[t.np[t.cur]].parent == t.cur
  {
    hide QueuesExact, CurrentHeads, FamilyOk, PidsOk, WaitersOk, ForksOk, FixedOk, SlicesOk;
    ForkingChild(s);
    t := Step(s, ForkParent);
  }

  lemma FinishReady(s: Kernel, n: nat) returns (t: Kernel)
    requires Inv(s) && Top(s) && 0 <= s.np[s.cur] <= n < NPROC && s.procs[s.np[s.cur]].parent == s.cur
    requires s.q[0] != [] && s.q[1] == [] && s.q[2] == [] && Spare(s, n + 1)
    ensures Enabled(s, ForkFinish) && !Panics(s, ForkFinish) && t == Step(s, ForkFinish)
    ensures Ready(t, n + 1) && Load(t) == Load(s) + 1
  {
    hide QueuesExact, CurrentHeads, FamilyOk, PidsOk, WaitersOk, ForksOk, FixedOk, SlicesOk;
    ForkingChild(s);
    PanicsExactly(s, ForkFinish);
    hide Panics;
    assert (s.q[0] + [s.np[s.cur]])[0] == s.q[0][0];
    t := Step(s, ForkFinish);
  }

  /** One fork more: one process more on the top level. */
  lemma ForkOnce(es: seq<Event>, n: nat) returns (more: seq<Event>)
    requires Possible(es) && Ready(StateAfter(es), n) && n < NPROC
    ensures Possible(more) && Ready(StateAfter(more), n + 1) && Load(StateAfter(more)) == Load(StateAfter(es)) + 1
  {
    hide Enabled, Panics, Step, Possible, Spare, Inv, Pick;
    var t := AllocReady(StateAfter(es), n);
    PossibleMore(es, ForkAlloc);
    SpareSize(t, n + 1);
    t := AdoptReady(t, n);
    PossibleMore(es + [ForkAlloc], ForkParent);
    SpareSize(t, n + 1);
    t := FinishReady(t, n);
    PossibleMore(es + [ForkAlloc] + [ForkParent], ForkFinish);
    more := es + [ForkAlloc] + [ForkParent] + [ForkFinish];
  }

  lemma SpareSize(s: Kernel, n: nat)
    requires Spare(s, n)
    ensures |s.procs| == NPROC
  {
  }

  lemma {:induction false} ForkMany(n: nat) returns (es: seq<Event>)
    requires 1 <= n <= NPROC - NCPU
    ensures Possible(es) && Ready(StateAfter(es), NCPU + n) && Load(StateAfter(es)) == n
  {
    if n == 1 {
      es := FirstReady();
    } else {
      var before := ForkMany(n - 1);
      hide Inv, Possible, Spare, Enabled, Panics, Step;
      es := ForkOnce(before, NCPU + n - 1);
    }
  }

  lemma FirstReady() returns (es: seq<Event>)
    ensures Possible(es) && Ready(StateAfter(es), NCPU + 1) && Load(StateAfter(es)) == 1
  {
    hide Inv, Enabled, Panics, Step, Possible, StateAfter, Ready, Running;
    TickRun();
    RunningReady();
    es := [Tick];
  }

  lemma RunningReady()
    ensures Ready(Running(false), NCPU + 1) && Load(Running(false)) == 1
  {
  }

  /** However many processes there are slots for, a run brings them all to the third level of one CPU. */
  lemma ThirdLevelFills(n: nat) returns (es: seq<Event>)
    requires 1 <= n <= NPROC - NCPU
    ensures Possible(es)
    ensures var s := StateAfter(es); |s.q| == LEVELS && s.q[0] == [] && s.q[1] == [] && |s.q[2]| == n
  {
    hide Inv, Possible;
    var forks := ForkMany(n);
    var ticks := Sink(forks, StateAfter(forks));
    es := forks + ticks;
  }
}
