/** Every event of SchedSpec keeps its invariant. */
module SchedProofs {
  import opened Lists
  import opened ProcTable
  import opened NodePool
  import opened BalanceSpec
  import opened SchedSpec

  ghost predicate NobodyRuns(s: Kernel)
    requires Shape(s)
  {
    forall p {:trigger s.procs[p]} :: 0 <= p < NPROC ==> s.procs[p].state != RUNNING
  }

  // ---------------------------------------------------------------- picking the next process

  /** The pick comes from the highest non-empty level; the idle process is picked only when all are empty. */
  lemma PickHighest(q: seq<seq<int>>)
    requires |q| == LEVELS
    ensures (exists l :: 0 <= l < LEVELS && q[l] != [] && Pick(q) == q[l][0] && forall k :: 0 <= k < l ==> q[k] == [])
         || (Pick(q) == IDLE && forall l :: 0 <= l < LEVELS ==> q[l] == [])
  {
    if q[0] != [] {
    } else if q[1] != [] {
      assert forall k :: 0 <= k < 1 ==> q[k] == [];
    } else if q[2] != [] {
      assert forall k :: 0 <= k < 2 ==> q[k] == [];
    }
  }

  lemma PickQueued(s: Kernel)
    requires Shape(s) && QueuesExact(s)
    ensures var p := Pick(s.q);
      0 <= p < NPROC && (p == IDLE || (Queued(s, p) && 0 <= s.procs[p].rq < LEVELS && First(s.q[s.procs[p].rq]) == p))
    ensures Pick(s.q) == IDLE ==> s.q[0] == [] && s.q[1] == [] && s.q[2] == []
  {
    forall l | 0 <= l < LEVELS && s.q[l] != []
      ensures s.q[l][0] in s.q[l] && 0 <= s.q[l][0] < NPROC && Queued(s, s.q[l][0]) && s.procs[s.q[l][0]].rq == l
    {
    }
  }

  lemma DispatchKeeps(s: Kernel)
    requires Shape(s) && QueuesExact(s) && FixedOk(s) && NobodyRuns(s) && !Stuck(s)
    ensures Shape(Dispatch(s)) && QueuesExact(Dispatch(s)) && CurrentHeads(Dispatch(s))
  {
    PickQueued(s);
  }

  // ---------------------------------------------------------------- what does not depend on the queues

  /** Nobody is born, dies or changes parent. */
  ghost predicate SameKin(s: Kernel, t: Kernel)
    requires Shape(s) && Shape(t)
  {
    && t.nextpid == s.nextpid
    && (forall p {:trigger s.procs[p]} {:trigger t.procs[p]} :: 0 <= p < NPROC ==>
          && t.procs[p].parent == s.procs[p].parent && t.procs[p].pid == s.procs[p].pid
          && (t.procs[p].state == s.procs[p].state || (Alive(s.procs[p]) && Alive(t.procs[p]))))
  }

  lemma KinKeeps(s: Kernel, t: Kernel)
    requires Shape(s) && Shape(t) && SameKin(s, t)
    requires FamilyOk(s) && PidsOk(s)
    ensures FamilyOk(t) && PidsOk(t)
  {
    hide SameKin, FamilyOk, PidsOk;
    FamilyKeeps(s, t);
    PidsKeep(s, t);
  }

  lemma FamilyKeeps(s: Kernel, t: Kernel)
    requires Shape(s) && Shape(t) && SameKin(s, t) && FamilyOk(s)
    ensures FamilyOk(t)
  {
    forall p {:trigger t.procs[p]} | 0 <= p < NPROC && t.procs[p].parent != NIL
      ensures t.procs[p].state != UNUSED && Alive(t.procs[t.procs[p].parent])
    {
      assert Alive(s.procs[s.procs[p].parent]);
    }
  }

  lemma PidsKeep(s: Kernel, t: Kernel)
    requires Shape(s) && Shape(t) && SameKin(s, t) && PidsOk(s)
    ensures PidsOk(t)
  {
  }

  ghost predicate NoNewSleeper(s: Kernel, t: Kernel)
    requires Shape(s) && Shape(t)
  {
    forall p {:trigger s.procs[p]} {:trigger t.procs[p]} :: 0 <= p < NPROC && t.procs[p].state == SLEEPING ==>
      s.procs[p].state == SLEEPING && t.procs[p].chan == s.procs[p].chan
  }

  lemma WaitersKeep(s: Kernel, t: Kernel)
    requires Shape(s) && Shape(t) && SameKin(s, t) && NoNewSleeper(s, t)
    requires WaitersOk(s)
    ensures WaitersOk(t)
  {
  }

  ghost predicate StillRunnable(s: Kernel, t: Kernel)
    requires Shape(s) && Shape(t)
  {
    && t.np == s.np
    && (forall p {:trigger s.procs[p]} {:trigger t.procs[p]} :: 0 <= p < NPROC && s.procs[p].state == EMBRYO ==>
         t.procs[p].rq == s.procs[p].rq)
    && forall p {:trigger s.procs[p]} {:trigger t.procs[p]} ::
       0 <= p < NPROC && (s.procs[p].state == RUNNABLE || s.procs[p].state == RUNNING) ==>
      t.procs[p].state == RUNNABLE || t.procs[p].state == RUNNING
  }

  lemma ForksKeep(s: Kernel, t: Kernel)
    requires Shape(s) && Shape(t) && SameKin(s, t) && StillRunnable(s, t)
    requires ForksOk(s) && FixedOk(s)
    ensures ForksOk(t) && FixedOk(t)
  {
  }

  // ---------------------------------------------------------------- queue moves

  lemma RotatedSame(list: seq<int>)
    requires InRange(list, NPROC) && Distinct(list)
    ensures InRange(Rotated(list), NPROC) && Distinct(Rotated(list))
    ensures forall p :: p in Rotated(list) <==> p in list
  {
    if list != [] {
      var r := Rotated(list);
      assert forall i :: 0 <= i < |r| ==> r[i] == list[if i + 1 < |list| then i + 1 else 0];
      assert list == [list[0]] + list[1..];
    }
  }

  lemma TailSame(list: seq<int>)
    requires list != [] && InRange(list, NPROC) && Distinct(list)
    ensures InRange(list[1..], NPROC) && Distinct(list[1..])
    ensures forall p :: p in list[1..] <==> p in list && p != list[0]
  {
    assert list == [list[0]] + list[1..];
  }

  /** A head of a queue that stops being runnable leaves it. */
  lemma DropKeeps(s: Kernel, p: int, x: Proc)
    requires Shape(s) && QueuesExact(s) && 0 <= p < NPROC && Queued(s, p) && First(s.q[s.procs[p].rq]) == p
    requires x.state != RUNNABLE && x.state != RUNNING
    ensures var t := DropHead(WithProc(s, p, x), s.procs[p].rq); Shape(t) && QueuesExact(t)
  {
    TailSame(s.q[s.procs[p].rq]);
  }

  /** A process that was not runnable and becomes so is appended to a queue. */
  lemma EnterKeeps(s: Kernel, p: int, x: Proc, level: int)
    requires Shape(s) && QueuesExact(s) && 0 <= p < NPROC && !IsIdle(p) && !Queued(s, p) && 0 <= level < LEVELS
    requires x.state == RUNNABLE
    ensures p !in s.q[level]
    ensures var t := Enter(WithProc(s, p, x), p, level); Shape(t) && QueuesExact(t)
  {
  }

  /** A head of a queue moves to the end of another one. */
  lemma MoveKeeps(s: Kernel, p: int, x: Proc, level: int)
    requires Shape(s) && QueuesExact(s) && 0 <= p < NPROC && Queued(s, p) && First(s.q[s.procs[p].rq]) == p
    requires 0 <= level < LEVELS && level != s.procs[p].rq && x.state == RUNNING
    ensures var t := Enter(DropHead(WithProc(s, p, x), s.procs[p].rq), p, level);
      var u := WithProc(t, p, t.procs[p].(state := RUNNABLE));
      Shape(u) && QueuesExact(u)
  {
    var from := s.procs[p].rq;
    DropKeeps(s, p, x.(state := SLEEPING));
    var dropped := DropHead(WithProc(s, p, x.(state := SLEEPING)), from);
    EnterKeeps(dropped, p, x.(state := RUNNABLE), level);
    var t := Enter(DropHead(WithProc(s, p, x), from), p, level);
    var u := WithProc(t, p, t.procs[p].(state := RUNNABLE));
    var v := Enter(WithProc(dropped, p, x.(state := RUNNABLE)), p, level);
    assert u.procs == v.procs;
  }

  lemma SleepersAre(procs: seq<Proc>, chan: Chan, n: nat)
    requires n <= |procs| == NPROC
    ensures InRange(Sleepers(procs, chan, n), NPROC) && Distinct(Sleepers(procs, chan, n))
    ensures forall p :: p in Sleepers(procs, chan, n) <==> 0 <= p < n && Asleep(procs[p], chan)
  {
  }

  /** The top level after wakeup1: what it held, and the sleepers. */
  lemma WokenTop(s: Kernel, chan: Chan, n: nat)
    requires Shape(s) && QueuesExact(s) && n <= NPROC
    ensures var t := Woken(s, chan, n);
      && |t.q| == LEVELS && t.q[1] == s.q[1] && t.q[2] == s.q[2]
      && InRange(t.q[0], NPROC) && Distinct(t.q[0])
      && (forall p {:trigger p in t.q[0]} :: p in t.q[0] <==> p in s.q[0] || (0 <= p < n && Asleep(s.procs[p], chan)))
  {
    SleepersAre(s.procs, chan, n);
    var added := Sleepers(s.procs, chan, n);
    forall p | p in added
      ensures p !in s.q[0]
    {
      assert Asleep(s.procs[p], chan);
    }
    ConcatSame(s.q[0], added);
  }

  lemma WokenQueues(s: Kernel, chan: Chan, n: nat)
    requires Shape(s) && QueuesExact(s) && FixedOk(s) && n <= NPROC
    ensures Shape(Woken(s, chan, n)) && QueuesExact(Woken(s, chan, n))
  {
    hide Sleepers, Distinct;
    WokenTop(s, chan, n);
  }

  lemma ConcatSame(a: seq<int>, b: seq<int>)
    requires InRange(a, NPROC) && InRange(b, NPROC) && Distinct(a) && Distinct(b)
    requires forall p :: p in b ==> p !in a
    ensures InRange(a + b, NPROC) && Distinct(a + b)
    ensures forall p :: p in a + b <==> p in a || p in b
  {
    forall i, j | 0 <= i < j < |a + b|
      ensures (a + b)[i] != (a + b)[j]
    {
      if i < |a| <= j {
        assert b[j - |a|] in b && a[i] in a;
      }
    }
  }

  // ---------------------------------------------------------------- ticks

  lemma CurrentQueued(s: Kernel)
    requires Shape(s) && QueuesExact(s) && CurrentHeads(s) && s.cur != IDLE
    ensures Queued(s, s.cur) && s.procs[s.cur].state == RUNNING && 0 <= s.procs[s.cur].rq < LEVELS
    ensures s.q[s.procs[s.cur].rq] != [] && s.q[s.procs[s.cur].rq][0] == s.cur
  {
  }

  /** Where the i-th element after balancing a queue of n with itself stood before. */
  function ShuffledFrom(n: int, i: int): (k: int)
    requires 0 <= i < n
    ensures 0 <= k < n
  {
    if i == 0 then 0 else if i < n - n / 2 then i + n / 2 else i - (n - n / 2) + 1
  }

  lemma ShuffledAt(list: seq<int>, i: int)
    requires 0 <= i < |list|
    ensures |Shuffled(list)| == |list| && Shuffled(list)[i] == list[ShuffledFrom(|list|, i)]
  {
  }

  /** Balancing a queue with itself permutes it. */
  lemma ShuffledSame(list: seq<int>)
    requires InRange(list, NPROC) && Distinct(list)
    ensures InRange(Shuffled(list), NPROC) && Distinct(Shuffled(list)) && |Shuffled(list)| == |list|
    ensures forall p :: p in Shuffled(list) <==> p in list
  {
    hide Shuffled;
    var n, r := |list|, Shuffled(list);
    if n == 0 {
      ShuffledNone();
    } else {
      ShuffledAt(list, 0);
      forall i | 0 <= i < n
        ensures r[i] == list[ShuffledFrom(n, i)]
      {
        ShuffledAt(list, i);
      }
      forall p | p in list
        ensures p in r
      {
        var k :| 0 <= k < n && list[k] == p;
        var at := if k == 0 then 0 else if k <= n / 2 then n - n / 2 + k - 1 else k - n / 2;
        assert ShuffledFrom(n, at) == k;
        assert r[at] == p;
      }
    }
  }

  lemma ShuffledNone()
    ensures Shuffled([]) == []
  {
  }

  lemma IdleYieldedQueues(s: Kernel)
    requires Shape(s) && QueuesExact(s) && IsIdle(s.cur)
    ensures Shape(IdleYielded(s)) && QueuesExact(IdleYielded(s))
  {
    hide Shuffled;
    ShuffledSame(s.q[0]);
    RotatedSame(Shuffled(s.q[0]));
  }

  lemma TickIdleKeeps(s: Kernel)
    requires Inv(s) && s.cur == IDLE
    ensures Shape(IdleYielded(s)) && Inv(TickIdle(s))
  {
    hide FamilyOk, PidsOk, WaitersOk, ForksOk, QueuesExact, Shuffled;
    IdleYieldedQueues(s);
    DispatchRest(s, IdleYielded(s));
  }

  /** From a state that differs from s only by who is runnable or on which queue, dispatching restores the invariant. */
  lemma DispatchRest(s: Kernel, t: Kernel)
    requires Inv(s) && Shape(t) && QueuesExact(t) && NobodyRuns(t) && SlicesOk(t) && !Stuck(t)
    requires SameKin(s, t) && NoNewSleeper(s, t) && StillRunnable(s, t)
    ensures Inv(Dispatch(t))
  {
    hide QueuesExact, CurrentHeads, FamilyOk, PidsOk, WaitersOk, ForksOk, FixedOk, SlicesOk, NobodyRuns;
    hide SameKin, NoNewSleeper, StillRunnable, Dispatch;
    KinKeeps(s, t);
    WaitersKeep(s, t);
    ForksKeep(s, t);
    DispatchInv(t);
  }

  lemma DispatchMild(s: Kernel)
    requires Shape(s) && QueuesExact(s) && FixedOk(s) && NobodyRuns(s) && SlicesOk(s) && !Stuck(s)
    ensures var t := Dispatch(s); Shape(t) && SameKin(s, t) && NoNewSleeper(s, t) && StillRunnable(s, t) && SlicesOk(t)
  {
    PickQueued(s);
  }

  lemma DemotedKeeps(s: Kernel)
    requires Inv(s) && s.cur != IDLE && s.procs[s.cur].rq < 2
    ensures s.q[s.procs[s.cur].rq] != [] && 0 <= s.procs[s.cur].rq && Inv(Demoted(s))
  {
    hide QueuesExact, CurrentHeads, FamilyOk, PidsOk, WaitersOk, ForksOk, FixedOk, SlicesOk;
    hide NobodyRuns, SameKin, NoNewSleeper, StillRunnable, Dispatch;
    CurrentQueued(s);
    var level, x := s.procs[s.cur].rq, s.procs[s.cur];
    MoveKeeps(s, s.cur, x.(timeslice := x.timeslice - 1), level + 1);
    var t := Enter(DropHead(WithProc(s, s.cur, x.(timeslice := x.timeslice - 1)), level), s.cur, level + 1);
    var u := WithProc(t, s.cur, t.procs[s.cur].(state := RUNNABLE));
    assert u.procs == s.procs[s.cur := Entered(x.(timeslice := x.timeslice - 1), level + 1).(state := RUNNABLE)];
    DemotedMild(s, u);
    PickQueued(u);
    DispatchRest(s, u);
  }

  lemma DemotedMild(s: Kernel, u: Kernel)
    requires Inv(s) && Shape(u) && s.cur != IDLE && 0 <= s.procs[s.cur].rq < 2
    requires u.np == s.np && u.nextpid == s.nextpid
    requires var x := s.procs[s.cur];
      u.procs == s.procs[s.cur := Entered(x.(timeslice := x.timeslice - 1), x.rq + 1).(state := RUNNABLE)]
    ensures NobodyRuns(u) && SlicesOk(u) && SameKin(s, u) && NoNewSleeper(s, u) && StillRunnable(s, u)
  {
    hide QueuesExact, FamilyOk, PidsOk, WaitersOk, ForksOk, FixedOk;
  }

  /** The state in which Demoted dispatches. */
  lemma DemotedFrom(s: Kernel) returns (u: Kernel)
    requires Inv(s) && s.cur != IDLE && s.procs[s.cur].rq < 2
    ensures Shape(u) && QueuesExact(u) && NobodyRuns(u) && !Stuck(u) && u.nextpid == s.nextpid
    ensures var x := s.procs[s.cur];
      u.procs == s.procs[s.cur := Entered(x.(timeslice := x.timeslice - 1), x.rq + 1).(state := RUNNABLE)]
    ensures 0 <= s.procs[s.cur].rq && s.q[s.procs[s.cur].rq] != [] && Demoted(s) == Dispatch(u)
  {
    hide QueuesExact, CurrentHeads, FamilyOk, PidsOk, WaitersOk, ForksOk, FixedOk, SlicesOk, Dispatch, NobodyRuns;
    CurrentQueued(s);
    var x := s.procs[s.cur];
    var y := x.(timeslice := x.timeslice - 1);
    MoveKeeps(s, s.cur, y, x.rq + 1);
    var t := Enter(DropHead(WithProc(s, s.cur, y), x.rq), s.cur, x.rq + 1);
    u := WithProc(t, s.cur, t.procs[s.cur].(state := RUNNABLE));
    DemotedMild(s, u);
    PickQueued(u);
  }

  lemma TouchQueues(s: Kernel, p: int, x: Proc)
    requires Shape(s) && QueuesExact(s) && 0 <= p < NPROC
    requires x.state == s.procs[p].state && x.rq == s.procs[p].rq
    ensures Shape(WithProc(s, p, x)) && QueuesExact(WithProc(s, p, x))
  {
  }

  /** A change to one process that leaves its state, its queue and its kin alone. */
  lemma TouchKeeps(s: Kernel, p: int, x: Proc)
    requires Inv(s) && 0 <= p < NPROC
    requires x.state == s.procs[p].state && x.rq == s.procs[p].rq && x.parent == s.procs[p].parent
      && x.pid == s.procs[p].pid
    requires x.state == SLEEPING ==> x.chan == s.procs[p].chan
    requires x.timeslice == s.procs[p].timeslice || (x.rq < 2 && 1 <= x.timeslice <= s.procs[p].timeslice)
    ensures Inv(WithProc(s, p, x))
  {
    hide FamilyOk, PidsOk, WaitersOk, ForksOk, FixedOk;
    var t := WithProc(s, p, x);
    TouchQueues(s, p, x);
    hide QueuesExact;
    KinKeeps(s, t);
    WaitersKeep(s, t);
    ForksKeep(s, t);
  }

  lemma TickUserKeeps(s: Kernel)
    requires Inv(s) && s.cur != IDLE
    ensures s.q[s.procs[s.cur].rq] != [] && 0 <= s.procs[s.cur].rq < LEVELS && Inv(TickUser(s))
  {
    hide FamilyOk, PidsOk, WaitersOk, ForksOk, FixedOk, QueuesExact, CurrentHeads, Demoted;
    CurrentQueued(s);
    var x := s.procs[s.cur];
    if x.rq < 2 {
      if x.timeslice == 1 {
        DemotedKeeps(s);
      } else {
        TouchKeeps(s, s.cur, x.(timeslice := x.timeslice - 1));
      }
    }
  }

  // ---------------------------------------------------------------- fork

  /** Queues and current process survive any change to processes that are not runnable before or after. */
  lemma QueuesStand(s: Kernel, t: Kernel)
    requires Shape(s) && QueuesExact(s) && CurrentHeads(s)
    requires |t.procs| == NPROC && |t.np| == NPROC && t.q == s.q && t.cur == s.cur
    requires forall p {:trigger t.procs[p]} :: 0 <= p < NPROC ==>
      || t.procs[p] == s.procs[p]
      || (!Queued(s, p) && !Queued(t, p) && s.procs[p].state != RUNNING && t.procs[p].state != RUNNING)
      || (t.procs[p].state == s.procs[p].state && t.procs[p].rq == s.procs[p].rq)
    ensures Shape(t) && QueuesExact(t) && CurrentHeads(t)
  {
  }

  /** One slot, neither idle nor init, is rewritten to x. */
  ghost predicate OneChanged(s: Kernel, t: Kernel, i: int, x: Proc)
    requires Shape(s) && Shape(t)
  {
    0 <= i < NPROC && !IsIdle(i) && i != INIT && t.procs == s.procs[i := x]
  }

  lemma FamilyOne(s: Kernel, t: Kernel, i: int, x: Proc)
    requires Shape(s) && Shape(t) && OneChanged(s, t, i, x) && FamilyOk(s)
    requires Alive(s.procs[i]) ==> Alive(x)
    requires x.parent != NIL ==>
      x.state != UNUSED && 0 <= x.parent < NPROC && x.parent != i && !IsIdle(x.parent) && Alive(s.procs[x.parent])
    requires x.state != UNUSED && x.state != EMBRYO ==> x.parent != NIL
    ensures FamilyOk(t)
  {
  }

  lemma WaitersOne(s: Kernel, t: Kernel, i: int, x: Proc)
    requires Shape(s) && Shape(t) && OneChanged(s, t, i, x) && WaitersOk(s)
    requires x.state != SLEEPING && x.state != ZOMBIE
    ensures WaitersOk(t)
  {
  }

  lemma PidsOne(s: Kernel, t: Kernel, i: int, x: Proc)
    requires Shape(s) && Shape(t) && OneChanged(s, t, i, x) && PidsOk(s)
    requires s.nextpid <= t.nextpid && x.pid < t.nextpid
    requires x.state != UNUSED ==> x.pid == s.nextpid || (x.pid == s.procs[i].pid && s.procs[i].state != UNUSED)
    ensures PidsOk(t)
  {
  }

  lemma FixedOne(s: Kernel, t: Kernel, i: int, x: Proc)
    requires Shape(s) && Shape(t) && OneChanged(s, t, i, x) && FixedOk(s)
    requires forall p {:trigger t.np[p]} :: 0 <= p < NPROC && IsIdle(p) ==> t.np[p] == s.np[p]
    ensures FixedOk(t)
  {
  }

  lemma AllocatedForks(s: Kernel, t: Kernel, i: int, x: Proc)
    requires Shape(s) && Shape(t) && OneChanged(s, t, i, x) && ForksOk(s) && FamilyOk(s)
    requires s.procs[i].state == UNUSED && x.state == EMBRYO && x.rq == NIL && x.parent == s.procs[i].parent
    requires s.procs[s.cur].state == RUNNING && t.np == s.np[s.cur := i]
    ensures ForksOk(t)
  {
  }

  lemma AllocatedKeeps(s: Kernel)
    requires Inv(s) && s.cur != IDLE && s.np[s.cur] == NIL
    ensures Inv(Allocated(s))
  {
    hide FamilyOk, PidsOk, WaitersOk, ForksOk, FixedOk, QueuesExact, CurrentHeads;
    var i := FindUnused(s.procs, 0);
    if i == NIL {
      return;
    }
    NotSpecial(s, i);
    CurrentQueued(s);
    var t, x := Allocated(s), s.procs[i].(state := EMBRYO, pid := s.nextpid, rq := NIL);
    QueuesStand(s, t);
    FamilyOne(s, t, i, x);
    WaitersOne(s, t, i, x);
    PidsOne(s, t, i, x);
    FixedOne(s, t, i, x);
    AllocatedForks(s, t, i, x);
  }

  lemma NotSpecial(s: Kernel, i: int)
    requires Shape(s) && FixedOk(s) && FamilyOk(s) && 0 <= i < NPROC
    requires s.procs[i].state == UNUSED || s.procs[i].state == EMBRYO
      || (s.procs[i].state == ZOMBIE && s.procs[i].parent != NIL)
    ensures !IsIdle(i) && i != INIT
    ensures s.procs[i].state == UNUSED ==> s.procs[i].parent == NIL
  {
  }

  lemma ForkingChild(s: Kernel)
    requires Shape(s) && FixedOk(s) && FamilyOk(s) && ForksOk(s) && s.np[s.cur] != NIL
    ensures 0 <= s.np[s.cur] < NPROC && s.procs[s.np[s.cur]].state == EMBRYO && s.procs[s.np[s.cur]].rq == NIL
    ensures !IsIdle(s.np[s.cur]) && s.np[s.cur] != INIT
    ensures s.procs[s.np[s.cur]].parent == NIL || s.procs[s.np[s.cur]].parent == s.cur
  {
  }

  lemma AdoptedForks(s: Kernel, t: Kernel, i: int, x: Proc)
    requires Shape(s) && Shape(t) && OneChanged(s, t, i, x) && ForksOk(s)
    requires s.np[s.cur] == i && t.np == s.np && x.state == EMBRYO && x.rq == s.procs[i].rq && x.parent == s.cur
    requires s.procs[i].state == EMBRYO && s.procs[s.cur].state == RUNNING
    ensures ForksOk(t)
  {
  }

  lemma AdoptedKeeps(s: Kernel)
    requires Inv(s) && s.cur != IDLE && s.np[s.cur] != NIL
    ensures 0 <= s.np[s.cur] < NPROC && Inv(Adopted(s))
  {
    hide FamilyOk, PidsOk, WaitersOk, ForksOk, FixedOk, QueuesExact, CurrentHeads;
    CurrentQueued(s);
    ForkingChild(s);
    var i := s.np[s.cur];
    var t, x := Adopted(s), s.procs[i].(parent := s.cur);
    QueuesStand(s, t);
    FamilyOne(s, t, i, x);
    WaitersOne(s, t, i, x);
    PidGiven(s, i);
    PidsOne(s, t, i, x);
    FixedOne(s, t, i, x);
    AdoptedForks(s, t, i, x);
  }

  lemma DoneForks(s: Kernel, t: Kernel, i: int, x: Proc)
    requires Shape(s) && Shape(t) && OneChanged(s, t, i, x) && ForksOk(s)
    requires s.np[s.cur] == i && t.np == s.np[s.cur := NIL]
    requires s.procs[i].state == EMBRYO
    ensures ForksOk(t)
  {
  }

  lemma AbandonedKeeps(s: Kernel)
    requires Inv(s) && s.cur != IDLE && s.np[s.cur] != NIL
    ensures 0 <= s.np[s.cur] < NPROC && Inv(Abandoned(s))
  {
    hide FamilyOk, PidsOk, WaitersOk, ForksOk, FixedOk, QueuesExact, CurrentHeads;
    CurrentQueued(s);
    ForkingChild(s);
    var i := s.np[s.cur];
    var t, x := Abandoned(s), s.procs[i].(state := UNUSED, parent := NIL);
    QueuesStand(s, t);
    FamilyOne(s, t, i, x);
    WaitersOne(s, t, i, x);
    PidGiven(s, i);
    PidsOne(s, t, i, x);
    FixedOne(s, t, i, x);
    DoneForks(s, t, i, x);
  }

  lemma PidGiven(s: Kernel, i: int)
    requires Shape(s) && PidsOk(s) && 0 <= i < NPROC
    ensures s.procs[i].pid < s.nextpid && 0 < s.nextpid
  {
  }

  /** Appending to a queue leaves the current process at the head of its own. */
  lemma EnterHeads(s: Kernel, p: int, x: Proc)
    requires Shape(s) && QueuesExact(s) && CurrentHeads(s) && 0 <= p < NPROC && !IsIdle(p) && !Queued(s, p)
    requires x.state == RUNNABLE
    ensures var t := Enter(WithProc(s, p, x), p, 0); Shape(t) && CurrentHeads(t)
  {
    assert s.procs[p].state != RUNNING;
    assert p != s.cur;
  }

  lemma ForkedKeeps(s: Kernel)
    requires Inv(s) && s.cur != IDLE && s.np[s.cur] != NIL && 0 <= s.np[s.cur] < NPROC
      && s.procs[s.np[s.cur]].parent == s.cur
    ensures Inv(Forked(s))
  {
    hide FamilyOk, PidsOk, WaitersOk, ForksOk, FixedOk, QueuesExact, CurrentHeads;
    CurrentQueued(s);
    ForkingChild(s);
    var i := s.np[s.cur];
    EnterKeeps(s, i, s.procs[i].(state := RUNNABLE), 0);
    EnterHeads(s, i, s.procs[i].(state := RUNNABLE));
    var entered := Enter(WithProc(s, i, s.procs[i].(state := RUNNABLE)), i, 0);
    var t, x := Forked(s), Entered(s.procs[i].(state := RUNNABLE), 0);
    QueuesStand(entered, t);
    FamilyOne(s, t, i, x);
    WaitersOne(s, t, i, x);
    PidGiven(s, i);
    PidsOne(s, t, i, x);
    FixedOne(s, t, i, x);
    DoneForks(s, t, i, x);
  }

  // ---------------------------------------------------------------- sleep and wakeup

  lemma SleptWaiters(s: Kernel, t: Kernel, chan: Chan)
    requires Shape(s) && Shape(t) && SameKin(s, t) && WaitersOk(s)
    requires forall p {:trigger t.procs[p]} :: 0 <= p < NPROC && t.procs[p].state == SLEEPING ==>
      if p == s.cur then t.procs[p].chan == chan else s.procs[p].state == SLEEPING && t.procs[p].chan == s.procs[p].chan
    requires chan.Address?
      || (chan == OfProc(s.cur) && forall c {:trigger s.procs[c]} :: 0 <= c < NPROC ==> !ZombieOf(s.procs[c], s.cur))
    ensures WaitersOk(t)
  {
  }

  lemma SleptForks(s: Kernel, t: Kernel)
    requires Shape(s) && Shape(t) && SameKin(s, t) && ForksOk(s) && FixedOk(s) && s.np[s.cur] == NIL && t.np == s.np
      && !IsIdle(s.cur)
    requires forall p {:trigger t.procs[p]} :: 0 <= p < NPROC && s.procs[p].state == EMBRYO ==>
      t.procs[p].rq == s.procs[p].rq
    requires forall p {:trigger t.procs[p]} ::
      0 <= p < NPROC && p != s.cur && (s.procs[p].state == RUNNABLE || s.procs[p].state == RUNNING) ==>
      t.procs[p].state == RUNNABLE || t.procs[p].state == RUNNING
    ensures ForksOk(t) && FixedOk(t)
  {
  }

  lemma SleptKeeps(s: Kernel, chan: Chan)
    requires Inv(s) && s.cur != IDLE && s.np[s.cur] == NIL && !LeavesStuck(s)
    requires chan.Address?
      || (chan == OfProc(s.cur) && forall c {:trigger s.procs[c]} :: 0 <= c < NPROC ==> !ZombieOf(s.procs[c], s.cur))
    ensures 0 <= s.procs[s.cur].rq < LEVELS && s.q[s.procs[s.cur].rq] != [] && Inv(Slept(s, chan))
  {
    hide FamilyOk, PidsOk, WaitersOk, ForksOk, FixedOk, QueuesExact, Dispatch;
    CurrentQueued(s);
    var x := s.procs[s.cur].(chan := chan, state := SLEEPING);
    DropKeeps(s, s.cur, x);
    var t := DropHead(WithProc(s, s.cur, x), s.procs[s.cur].rq);
    SleptForks(s, t);
    SleptWaiters(s, t, chan);
    KinKeeps(s, t);
    DispatchInv(t);
  }

  /** Dispatching restores the invariant from any state in which nobody runs. */
  lemma DispatchInv(s: Kernel)
    requires Shape(s) && QueuesExact(s) && NobodyRuns(s) && SlicesOk(s) && FixedOk(s) && !Stuck(s)
    requires FamilyOk(s) && WaitersOk(s) && ForksOk(s) && PidsOk(s)
    ensures Inv(Dispatch(s))
  {
    hide FamilyOk, PidsOk, WaitersOk, ForksOk, FixedOk, QueuesExact, CurrentHeads, NobodyRuns, Dispatch, SameKin,
      NoNewSleeper, StillRunnable, SlicesOk;
    DispatchKeeps(s);
    DispatchMild(s);
    var u := Dispatch(s);
    KinKeeps(s, u);
    WaitersKeep(s, u);
    ForksKeep(s, u);
  }

  lemma WokenHeads(s: Kernel, chan: Chan, n: nat)
    requires Shape(s) && CurrentHeads(s) && QueuesExact(s) && n <= NPROC
    requires Shape(Woken(s, chan, n))
    ensures CurrentHeads(Woken(s, chan, n))
  {
    if s.cur != IDLE {
      CurrentQueued(s);
    }
  }

  lemma WokenMild(s: Kernel, chan: Chan, n: nat)
    requires Shape(s) && SlicesOk(s) && n <= NPROC
    requires Shape(Woken(s, chan, n))
    ensures var t := Woken(s, chan, n); SameKin(s, t) && NoNewSleeper(s, t) && StillRunnable(s, t) && SlicesOk(t)
  {
  }

  lemma WokenKeeps(s: Kernel, chan: Chan, n: nat)
    requires Inv(s) && n <= NPROC
    ensures Inv(Woken(s, chan, n))
  {
    hide QueuesExact, CurrentHeads, FamilyOk, PidsOk, WaitersOk, ForksOk, FixedOk, SlicesOk, SameKin, NoNewSleeper,
      StillRunnable, Woken;
    WokenQueues(s, chan, n);
    WokenHeads(s, chan, n);
    WokenMild(s, chan, n);
    var t := Woken(s, chan, n);
    KinKeeps(s, t);
    WaitersKeep(s, t);
    ForksKeep(s, t);
  }

  // ---------------------------------------------------------------- exit, wait and kill

  lemma SleepersSame(a: seq<Proc>, b: seq<Proc>, chan: Chan, n: nat)
    requires n <= |a| == |b|
    requires forall i :: 0 <= i < n ==> (Asleep(a[i], chan) <==> Asleep(b[i], chan))
    ensures Sleepers(a, chan, n) == Sleepers(b, chan, n)
  {
  }

  /** Handing over the children and waking up commute. */
  lemma MovedWoken(s: Kernel, chan: Chan, n: nat)
    requires Shape(s) && n <= NPROC
    ensures Woken(HandedOver(s, n), chan, NPROC) == HandedOver(Woken(s, chan, NPROC), n)
  {
    SleepersSame(s.procs, HandedOver(s, n).procs, chan, NPROC);
    var a, b := Woken(HandedOver(s, n), chan, NPROC), HandedOver(Woken(s, chan, NPROC), n);
    assert a.procs == b.procs;
  }

  lemma MovedFamily(s: Kernel)
    requires Shape(s) && FamilyOk(s) && FixedOk(s) && Shape(HandedOver(s, NPROC)) && !IsIdle(s.cur)
    ensures FamilyOk(HandedOver(s, NPROC)) && FixedOk(HandedOver(s, NPROC))
  {
    hide HandedOver;
    MovedAt(s);
  }

  lemma MovedAt(s: Kernel)
    requires Shape(s)
    ensures Shape(HandedOver(s, NPROC))
    ensures var t := HandedOver(s, NPROC); t.np == s.np && t.q == s.q && t.cur == s.cur && t.nextpid == s.nextpid
    ensures forall p {:trigger HandedOver(s, NPROC).procs[p]} {:trigger s.procs[p]} :: 0 <= p < NPROC ==>
      && HandedOver(s, NPROC).procs[p] ==
         s.procs[p].(parent := if s.procs[p].parent == s.cur then INIT else s.procs[p].parent)
  {
  }

  lemma MovedWaiters(s: Kernel)
    requires Shape(s) && WaitersOk(s) && Shape(HandedOver(s, NPROC))
    requires (exists i :: 0 <= i < NPROC && ZombieOf(s.procs[i], s.cur)) ==> !Asleep(s.procs[INIT], OfProc(INIT))
    ensures WaitersOk(HandedOver(s, NPROC))
  {
    hide HandedOver;
    MovedAt(s);
  }

  lemma MovedForks(s: Kernel)
    requires Shape(s) && ForksOk(s) && PidsOk(s) && SlicesOk(s) && s.np[s.cur] == NIL && Shape(HandedOver(s, NPROC))
    ensures ForksOk(HandedOver(s, NPROC)) && PidsOk(HandedOver(s, NPROC)) && SlicesOk(HandedOver(s, NPROC))
  {
    hide HandedOver;
    MovedAt(s);
  }

  lemma MovedKeeps(s: Kernel)
    requires Inv(s) && s.cur != IDLE && s.np[s.cur] == NIL
    requires (exists i :: 0 <= i < NPROC && ZombieOf(s.procs[i], s.cur)) ==> !Asleep(s.procs[INIT], OfProc(INIT))
    ensures Inv(HandedOver(s, NPROC))
  {
    hide QueuesExact, CurrentHeads, FamilyOk, PidsOk, WaitersOk, ForksOk, FixedOk, SlicesOk;
    MovedAt(s);
    CurrentQueued(s);
    MovedFamily(s);
    MovedWaiters(s);
    MovedForks(s);
    QueuesStand(s, HandedOver(s, NPROC));
  }

  /** After exit's two wakeups and the hand-over, only the state of the exiting process is left to change. */
  lemma OrphanedKeeps(s: Kernel)
    requires Inv(s) && s.cur != IDLE && s.cur != INIT && s.np[s.cur] == NIL
    ensures Inv(Orphaned(s))
    ensures Orphaned(s).cur == s.cur && Orphaned(s).procs[s.cur] == s.procs[s.cur] && Orphaned(s).np == s.np
    ensures forall p {:trigger Orphaned(s).procs[p]} :: 0 <= p < NPROC ==> Orphaned(s).procs[p].parent != s.cur
    ensures var dad := s.procs[s.cur].parent; 0 <= dad < NPROC && !Asleep(Orphaned(s).procs[dad], OfProc(dad))
  {
    hide QueuesExact, CurrentHeads, FamilyOk, PidsOk, WaitersOk, ForksOk, FixedOk, SlicesOk;
    CurrentQueued(s);
    Dad(s, s.cur);
    var dad := s.procs[s.cur].parent;
    WokenKeeps(s, OfProc(dad), NPROC);
    var t := Woken(s, OfProc(dad), NPROC);
    var u := if exists i :: 0 <= i < NPROC && ZombieOf(t.procs[i], t.cur) then Woken(t, OfProc(INIT), NPROC) else t;
    WokenKeeps(t, OfProc(INIT), NPROC);
    MovedWoken(t, OfProc(INIT), NPROC);
    assert Orphaned(s) == HandedOver(u, NPROC);
    MovedKeeps(u);
  }

  lemma Dad(s: Kernel, p: int)
    requires Shape(s) && FamilyOk(s) && 0 <= p < NPROC && !IsIdle(p) && p != INIT && s.procs[p].state != UNUSED
      && s.procs[p].state != EMBRYO
    ensures 0 <= s.procs[p].parent < NPROC && Alive(s.procs[s.procs[p].parent]) && !IsIdle(s.procs[p].parent)
      && s.procs[p].parent != p
  {
  }

  lemma ZombieFamily(s: Kernel, t: Kernel, x: Proc)
    requires Shape(s) && Shape(t) && FamilyOk(s) && WaitersOk(s) && PidsOk(s) && OneChanged(s, t, s.cur, x)
    requires x == s.procs[s.cur].(killed := false, state := ZOMBIE) && t.nextpid == s.nextpid && Alive(s.procs[s.cur])
    requires forall p {:trigger s.procs[p]} :: 0 <= p < NPROC ==> s.procs[p].parent != s.cur
    requires var dad := x.parent; 0 <= dad < NPROC && !Asleep(s.procs[dad], OfProc(dad))
    ensures FamilyOk(t) && WaitersOk(t) && PidsOk(t)
  {
  }

  lemma ZombieForks(s: Kernel, t: Kernel, x: Proc)
    requires Shape(s) && Shape(t) && ForksOk(s) && FixedOk(s) && OneChanged(s, t, s.cur, x)
    requires x.state == ZOMBIE && t.np == s.np && s.np[s.cur] == NIL && Alive(s.procs[s.cur])
    ensures ForksOk(t) && FixedOk(t)
  {
  }

  lemma ZombieKeeps(s: Kernel)
    requires Inv(s) && s.cur != IDLE && s.cur != INIT && s.np[s.cur] == NIL
    requires forall p {:trigger s.procs[p]} :: 0 <= p < NPROC ==> s.procs[p].parent != s.cur
    requires var dad := s.procs[s.cur].parent; 0 <= dad < NPROC && !Asleep(s.procs[dad], OfProc(dad))
    requires !LeavesStuck(s)
    ensures 0 <= s.procs[s.cur].rq < LEVELS && s.q[s.procs[s.cur].rq] != [] && Inv(Zombie(s))
  {
    hide FamilyOk, PidsOk, WaitersOk, ForksOk, FixedOk, QueuesExact, Dispatch;
    CurrentQueued(s);
    var x := s.procs[s.cur].(killed := false, state := ZOMBIE);
    DropKeeps(s, s.cur, x);
    var t := DropHead(WithProc(s, s.cur, x), s.procs[s.cur].rq);
    ZombieFamily(s, t, x);
    ZombieForks(s, t, x);
    DispatchInv(t);
  }

  /** exit keeps the invariant. */
  lemma ExitKeeps(s: Kernel)
    requires Inv(s) && s.cur != IDLE && s.cur != INIT && s.np[s.cur] == NIL && !LeavesStuck(Orphaned(s))
    ensures var t := Orphaned(s);
      Shape(t) && 0 <= t.procs[t.cur].rq < LEVELS && t.q[t.procs[t.cur].rq] != [] && Inv(Zombie(t))
  {
    hide FamilyOk, PidsOk, WaitersOk, ForksOk, FixedOk, QueuesExact, CurrentHeads, SlicesOk, Orphaned, Zombie;
    OrphanedKeeps(s);
    ZombieKeeps(Orphaned(s));
  }

  lemma GoneRest(s: Kernel, t: Kernel)
    requires Inv(s) && s.cur == IDLE && Shape(t)
      && t == WithProc(s, s.cur, s.procs[s.cur].(killed := false, state := ZOMBIE))
    ensures SlicesOk(t) && FixedOk(t) && ForksOk(t) && PidsOk(t)
  {
    hide QueuesExact, CurrentHeads, FamilyOk, WaitersOk;
  }

  lemma GoneFamily(s: Kernel, t: Kernel)
    requires Inv(s) && s.cur == IDLE && Shape(t)
      && t == WithProc(s, s.cur, s.procs[s.cur].(killed := false, state := ZOMBIE))
    ensures FamilyOk(t) && WaitersOk(t)
  {
    hide QueuesExact, CurrentHeads, ForksOk, PidsOk, SlicesOk;
  }

  lemma GoneQueues(s: Kernel, t: Kernel)
    requires Shape(s) && QueuesExact(s) && CurrentHeads(s) && s.cur == IDLE
    requires t == WithProc(s, s.cur, s.procs[s.cur].(killed := false, state := ZOMBIE))
    ensures Shape(t) && QueuesExact(t) && NobodyRuns(t)
  {
  }

  /** The forced exit of the idle process keeps the invariant if somebody else can run. */
  lemma IdleGoneKeeps(s: Kernel)
    requires Inv(s) && s.cur == IDLE && Pick(s.q) != IDLE
    ensures Inv(IdleGone(s))
  {
    hide FamilyOk, PidsOk, WaitersOk, ForksOk, FixedOk, QueuesExact, CurrentHeads, SlicesOk, Dispatch, NobodyRuns;
    var t := WithProc(s, s.cur, s.procs[s.cur].(killed := false, state := ZOMBIE));
    GoneQueues(s, t);
    GoneRest(s, t);
    GoneFamily(s, t);
    DispatchInv(t);
  }

  lemma ReapedForks(s: Kernel, t: Kernel, c: int, x: Proc)
    requires Shape(s) && Shape(t) && ForksOk(s) && OneChanged(s, t, c, x)
    requires s.procs[c].state == ZOMBIE && t.np == s.np
    ensures ForksOk(t)
  {
  }

  /** wait takes a zombie child off the table. */
  lemma ReapedKeeps(s: Kernel, c: int)
    requires Inv(s) && s.cur != IDLE && 0 <= c < NPROC && ZombieOf(s.procs[c], s.cur)
    ensures Inv(Reaped(s, c))
  {
    hide FamilyOk, PidsOk, WaitersOk, ForksOk, FixedOk, QueuesExact, CurrentHeads;
    NotSpecial(s, c);
    CurrentQueued(s);
    var t, x := Reaped(s, c), s.procs[c].(state := UNUSED, pid := 0, parent := NIL);
    QueuesStand(s, t);
    FamilyOne(s, t, c, x);
    WaitersOne(s, t, c, x);
    PidGiven(s, c);
    PidsOne(s, t, c, x);
    FixedOne(s, t, c, x);
    ReapedForks(s, t, c, x);
  }
}
