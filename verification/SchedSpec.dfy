/**
 The process life cycle on one CPU under the multi-level feedback queue, as a transition system on
 values. Each critical section of proc.c, sysproc.c and sched_MLFQ.c is one event; sleep runs up to
 its context switch in one event.
 */
module SchedSpec {
  import opened Lists
  import opened ProcTable
  import opened NodePool
  import opened BalanceSpec

  /** userinit fills slot 0 with the first user process and slots 1 to NCPU with the idle processes. */
  const INIT: int := 0
  const IDLE: int := 1

  predicate IsIdle(p: int) {
    IDLE <= p < IDLE + NCPU
  }

  const LEVELS: int := 3

  /** rq->max_slices of the two round-robin levels, set in pinit. */
  function MaxSlices(level: int): int {
    if level == 0 then 20 else 500
  }

  /**
   procs is proc[]; q holds the contents of the three run queues of the CPU; cur is its current process;
   np is, for every process, the local variable np of a fork in progress.
   */
  datatype Kernel = Kernel(procs: seq<Proc>, q: seq<seq<int>>, cur: int, np: seq<int>, nextpid: int)

  ghost predicate Shape(s: Kernel) {
    && |s.procs| == NPROC && |s.np| == NPROC && |s.q| == LEVELS
    && 0 <= s.cur < NPROC
    && (forall l {:trigger s.q[l]} :: 0 <= l < LEVELS ==> InRange(s.q[l], NPROC))
  }

  // ---------------------------------------------------------------- building blocks of the events

  function WithProc(s: Kernel, p: int, x: Proc): (r: Kernel)
    requires 0 <= p < |s.procs|
  {
    s.(procs := s.procs[p := x])
  }

  function Entered(x: Proc, level: int): (r: Proc) {
    if level < 2 then EnteredRing(x, level, MaxSlices(level)) else EnteredFifo(x, level)
  }

  /** sub_sched_class->enqueue_proc at a level. */
  function Enter(s: Kernel, p: int, level: int): (r: Kernel)
    requires |s.q| == LEVELS && 0 <= level < LEVELS && 0 <= p < |s.procs|
  {
    s.(procs := s.procs[p := Entered(s.procs[p], level)], q := s.q[level := s.q[level] + [p]])
  }

  /** The head of a level leaves it. */
  function DropHead(s: Kernel, level: int): (r: Kernel)
    requires |s.q| == LEVELS && 0 <= level < LEVELS && s.q[level] != []
  {
    s.(q := s.q[level := s.q[level][1..]])
  }

  /** pick_next_proc: the head of the highest non-empty level, or the idle process. */
  function Pick(q: seq<seq<int>>): (p: int)
    requires |q| == LEVELS
  {
    if q[0] != [] then q[0][0] else if q[1] != [] then q[1][0] else if q[2] != [] then q[2][0] else IDLE
  }

  /** The end of schedule: the picked process becomes current. */
  ghost function Dispatch(s: Kernel): (r: Kernel)
    requires Shape(s)
  {
    var next := Pick(s.q);
    s.(cur := next, procs := s.procs[next := s.procs[next].(state := RUNNING)])
  }

  /** The pick would be the idle process of this CPU, which has exited: schedule runs on in exit and panics. */
  predicate Stuck(s: Kernel)
    requires IDLE < |s.procs| && |s.q| == LEVELS
  {
    s.procs[IDLE].state == ZOMBIE && Pick(s.q) == IDLE
  }

  predicate Asleep(x: Proc, chan: Chan) {
    x.state == SLEEPING && x.chan == chan
  }

  /** The slots below n that sleep on chan, in table order. */
  function Sleepers(procs: seq<Proc>, chan: Chan, n: nat): (r: seq<int>)
    requires n <= |procs|
  {
    if n == 0 then [] else Sleepers(procs, chan, n - 1) + (if Asleep(procs[n - 1], chan) then [n - 1] else [])
  }

  function Awake(x: Proc, chan: Chan): (r: Proc) {
    if Asleep(x, chan) then Entered(x.(state := RUNNABLE), 0) else x
  }

  /** wakeup1 after it has visited the slots below n. */
  function Woken(s: Kernel, chan: Chan, n: nat): (r: Kernel)
    requires |s.q| == LEVELS && n <= |s.procs|
  {
    s.(procs := seq(|s.procs|, i requires 0 <= i < |s.procs| => if i < n then Awake(s.procs[i], chan) else s.procs[i]),
       q := s.q[0 := s.q[0] + Sleepers(s.procs, chan, n)])
  }

  /** The current process, left in state x, gives up the CPU: it leaves its queue and the next one runs. */
  ghost function Block(s: Kernel, x: Proc): (r: Kernel)
    requires Shape(s) && 0 <= s.procs[s.cur].rq < LEVELS && s.q[s.procs[s.cur].rq] != []
  {
    Dispatch(DropHead(WithProc(s, s.cur, x), s.procs[s.cur].rq))
  }

  // ---------------------------------------------------------------- the invariant

  /** A process that must be on a run queue. */
  predicate Queued(s: Kernel, p: int)
    requires 0 <= p < |s.procs|
  {
    !IsIdle(p) && (s.procs[p].state == RUNNABLE || s.procs[p].state == RUNNING)
  }

  predicate Alive(x: Proc) {
    x.state == SLEEPING || x.state == RUNNABLE || x.state == RUNNING
  }

  /**
   The three queues together hold exactly the runnable non-idle processes, each once, each on the queue its rq
   names.
   */
  ghost predicate QueuesExact(s: Kernel)
    requires Shape(s)
  {
    && (forall l {:trigger s.q[l]} :: 0 <= l < LEVELS ==> Distinct(s.q[l]))
    && (forall l, p {:trigger p in s.q[l]} :: 0 <= l < LEVELS && p in s.q[l] ==>
         0 <= p < NPROC && Queued(s, p) && s.procs[p].rq == l)
    && (forall p {:trigger s.procs[p]} :: 0 <= p < NPROC && Queued(s, p) ==>
         0 <= s.procs[p].rq < LEVELS && p in s.q[s.procs[p].rq])
  }

  /**
   Only the current process is RUNNING; unless it is idle it heads the queue its rq names; while the
   idle process runs, only the top level can have filled up.
   */
  ghost predicate CurrentHeads(s: Kernel)
    requires Shape(s)
  {
    && (forall p {:trigger s.procs[p]} :: 0 <= p < NPROC ==> (s.procs[p].state == RUNNING <==> p == s.cur))
    && (s.cur != IDLE ==> !IsIdle(s.cur) && 0 <= s.procs[s.cur].rq < LEVELS && First(s.q[s.procs[s.cur].rq]) == s.cur)
    && (s.cur == IDLE ==> s.q[1] == [] && s.q[2] == [])
  }

  /** While a process belongs to a round-robin level, between steps, it has 1 to max_slices ticks left. */
  ghost predicate SlicesOk(s: Kernel)
    requires Shape(s)
  {
    forall p {:trigger s.procs[p]} :: 0 <= p < NPROC ==>
      && (s.procs[p].rq == 0 ==> 1 <= s.procs[p].timeslice <= MaxSlices(0))
      && (s.procs[p].rq == 1 ==> 1 <= s.procs[p].timeslice <= MaxSlices(1))
  }

  /** What the idle processes and the first user process always are; the idle process of this CPU can have exited. */
  ghost predicate FixedOk(s: Kernel)
    requires Shape(s)
  {
    && (forall p {:trigger s.procs[p]} :: 0 <= p < NPROC && IsIdle(p) ==>
          && (s.procs[p].state == RUNNABLE || s.procs[p].state == RUNNING || (p == IDLE && s.procs[p].state == ZOMBIE))
          && s.procs[p].parent == NIL)
    && (forall p {:trigger s.np[p]} :: 0 <= p < NPROC && IsIdle(p) ==> s.np[p] == NIL)
    && Alive(s.procs[INIT]) && s.procs[INIT].parent == NIL
  }

  /** Parents are alive; whoever sleeps in wait has no zombie child. */
  ghost predicate FamilyOk(s: Kernel)
    requires Shape(s)
  {
    && (forall p {:trigger s.procs[p]} :: 0 <= p < NPROC && s.procs[p].parent != NIL ==>
          && s.procs[p].state != UNUSED && s.procs[p].parent != p
          && 0 <= s.procs[p].parent < NPROC && !IsIdle(s.procs[p].parent) && Alive(s.procs[s.procs[p].parent]))
    && (forall p {:trigger s.procs[p]} ::
         0 <= p < NPROC && !IsIdle(p) && p != INIT && s.procs[p].state != UNUSED && s.procs[p].state != EMBRYO ==>
          s.procs[p].parent != NIL)
  }

  ghost predicate WaitersOk(s: Kernel)
    requires Shape(s)
  {
    && (forall p {:trigger s.procs[p]} :: 0 <= p < NPROC && s.procs[p].state == SLEEPING ==>
          s.procs[p].chan != NoChan && (s.procs[p].chan.OfProc? ==> s.procs[p].chan.slot == p))
    && (forall p, c {:trigger s.procs[p], s.procs[c]} ::
         0 <= p < NPROC && 0 <= c < NPROC && Asleep(s.procs[p], OfProc(p)) && s.procs[c].parent == p ==>
          s.procs[c].state != ZOMBIE)
  }

  /** A fork in progress owns its half-made child, which is nobody else's. */
  ghost predicate ForksOk(s: Kernel)
    requires Shape(s)
  {
    && (forall p {:trigger s.np[p]} :: 0 <= p < NPROC && s.np[p] != NIL ==>
          && 0 <= s.np[p] < NPROC && s.procs[s.np[p]].state == EMBRYO && s.procs[s.np[p]].rq == NIL
          && (s.procs[s.np[p]].parent == NIL || s.procs[s.np[p]].parent == p)
          && (s.procs[p].state == RUNNABLE || s.procs[p].state == RUNNING))
    && (forall p, r {:trigger s.np[p], s.np[r]} :: 0 <= p < r < NPROC && s.np[p] == s.np[r] ==> s.np[p] == NIL)
  }

  /** Live processes have distinct pids, all given out already. */
  ghost predicate PidsOk(s: Kernel)
    requires Shape(s)
  {
    && 0 < s.nextpid
    && (forall p {:trigger s.procs[p]} :: 0 <= p < NPROC ==>
         s.procs[p].pid < s.nextpid && (s.procs[p].state != UNUSED ==> 0 < s.procs[p].pid))
    && (forall p, r {:trigger s.procs[p], s.procs[r]} ::
         0 <= p < r < NPROC && s.procs[p].state != UNUSED && s.procs[r].state != UNUSED ==>
          s.procs[p].pid != s.procs[r].pid)
  }

  ghost predicate Inv(s: Kernel) {
    Shape(s) && QueuesExact(s) && CurrentHeads(s) && SlicesOk(s) && FixedOk(s) && FamilyOk(s) && WaitersOk(s)
      && ForksOk(s) && PidsOk(s)
  }

  // ---------------------------------------------------------------- the events

  datatype Event =
    | Tick                        // timer interrupt: load balancing if idle, then proc_tick on the current process
    | ForkAlloc                   // allocproc, called by copyproc
    | ForkParent                  // copyproc has a kernel stack and links the child to its parent
    | ForkFail                    // copyproc runs out of memory
    | ForkFinish                  // sys_fork makes the child runnable
    | Sleep(a: int)               // sleep on a kernel address
    | Wakeup(b: int)              // wakeup of a kernel address, from a process or an interrupt
    | Resume                      // the tidy-up at the end of sleep
    | Exit                        // the system call, or forced on a killed process by trap
    | Wait                        // one scan of wait, up to its return or its sleep
    | Kill(pid: int)

  /** The lowest slot at or above i that satisfies UNUSED, or NIL. */
  function FindUnused(procs: seq<Proc>, i: nat): (r: int)
    requires i <= |procs|
    ensures r == NIL ==> forall j :: i <= j < |procs| ==> procs[j].state != UNUSED
    ensures r != NIL ==> i <= r < |procs| && procs[r].state == UNUSED && forall j :: i <= j < r ==>
      procs[j].state != UNUSED
    decreases |procs| - i
  {
    if i == |procs| then NIL else if procs[i].state == UNUSED then i else FindUnused(procs, i + 1)
  }

  function FindPid(procs: seq<Proc>, pid: int, i: nat): (r: int)
    requires i <= |procs|
    ensures r == NIL ==> forall j :: i <= j < |procs| ==> procs[j].pid != pid
    ensures r != NIL ==> i <= r < |procs| && procs[r].pid == pid && forall j :: i <= j < r ==> procs[j].pid != pid
    decreases |procs| - i
  {
    if i == |procs| then NIL else if procs[i].pid == pid then i else FindPid(procs, pid, i + 1)
  }

  predicate ZombieOf(x: Proc, parent: int) {
    x.state == ZOMBIE && x.parent == parent
  }

  predicate ChildOf(x: Proc, parent: int) {
    x.state != UNUSED && x.parent == parent
  }

  function FindZombie(procs: seq<Proc>, parent: int, i: nat): (r: int)
    requires i <= |procs|
    ensures r == NIL ==> forall j :: i <= j < |procs| ==> !ZombieOf(procs[j], parent)
    ensures r != NIL ==> i <= r < |procs| && ZombieOf(procs[r], parent) && forall j :: i <= j < r ==>
      !ZombieOf(procs[j], parent)
    decreases |procs| - i
  {
    if i == |procs| then NIL else if ZombieOf(procs[i], parent) then i else FindZombie(procs, parent, i + 1)
  }

  predicate HasKids(procs: seq<Proc>, parent: int) {
    exists i :: 0 <= i < |procs| && ChildOf(procs[i], parent)
  }

  /**
   The idle processes only run the loop of idlecode.S in user mode, so they take no system call and an
   interrupt finds them there: once killed, the next one makes the idle process exit instead of ticking.
   A process inside copyproc does nothing else; kernel addresses other than process slots are slept on by
   drivers.
   */
  ghost predicate Enabled(s: Kernel, e: Event)
    requires Shape(s)
  {
    match e
    case Tick => s.cur == IDLE ==> !s.procs[s.cur].killed
    case Wakeup(b) => true
    case ForkAlloc => s.cur != IDLE && s.np[s.cur] == NIL
    case ForkParent => s.cur != IDLE && s.np[s.cur] != NIL
    case ForkFail => s.cur != IDLE && s.np[s.cur] != NIL
    case ForkFinish => s.cur != IDLE && s.np[s.cur] != NIL && 0 <= s.np[s.cur] < NPROC
      && s.procs[s.np[s.cur]].parent == s.cur
    case Sleep(a) => s.cur != IDLE && s.np[s.cur] == NIL
    case Resume => s.cur != IDLE && s.np[s.cur] == NIL
    case Exit => if s.cur == IDLE then s.procs[s.cur].killed else s.np[s.cur] == NIL
    case Wait => s.cur != IDLE && s.np[s.cur] == NIL
    case Kill(pid) => s.cur != IDLE && s.np[s.cur] == NIL
  }

  /** The current process gives up the CPU and nobody is left but an idle process that has exited. */
  predicate LeavesStuck(s: Kernel)
    requires |s.procs| == NPROC && |s.q| == LEVELS && 0 <= s.cur < NPROC
  {
    var level := s.procs[s.cur].rq;
    0 <= level < LEVELS && s.q[level] != [] && Stuck(DropHead(s, level))
  }

  /** When the kernel calls panic instead of completing the event. */
  ghost predicate Panics(s: Kernel, e: Event)
    requires Shape(s)
  {
    match e
    case Tick => s.cur != IDLE && !(0 <= s.procs[s.cur].rq < LEVELS)      // Error in tick_MLFQ
    case ForkFinish => NPROC <= |s.q[0]|                                  // enqueue_proc finds no free node
    case Wakeup(b) => NPROC < |s.q[0]| + |Sleepers(s.procs, Address(b), NPROC)|
    case Sleep(a) => LeavesStuck(s)                                       // zombie exit
    case Wait => FindZombie(s.procs, s.cur, 0) == NIL && HasKids(s.procs, s.cur) && !s.procs[s.cur].killed
      && LeavesStuck(s)
    case Exit => s.cur == INIT                                            // init exiting
      || (if s.cur == IDLE then Pick(s.q) == IDLE else LeavesStuck(Orphaned(s)))   // zombie exit
    case Kill(pid) =>                                                     // enqueue_proc no lock
      var p := FindPid(s.procs, pid, 0);
      p != NIL && s.procs[p].state == SLEEPING
    case _ => false
  }

  /** The state in which an idle tick dispatches: balanced and yielded on the only queue that can be non-empty. */
  function IdleYielded(s: Kernel): (r: Kernel)
    requires |s.q| == LEVELS && 0 <= s.cur < |s.procs|
  {
    s.(procs := s.procs[s.cur := s.procs[s.cur].(state := RUNNABLE)], q := s.q[0 := Rotated(Shuffled(s.q[0]))])
  }

  ghost function TickIdle(s: Kernel): (r: Kernel)
    requires Shape(s) && Shape(IdleYielded(s))
  {
    Dispatch(IdleYielded(s))
  }

  /** The slice of the current process has run out: it moves one level down and the next one runs. */
  ghost function Demoted(s: Kernel): (r: Kernel)
    requires Shape(s) && 0 <= s.procs[s.cur].rq < 2 && s.q[s.procs[s.cur].rq] != []
  {
    var level, x := s.procs[s.cur].rq, s.procs[s.cur];
    var t := Enter(DropHead(WithProc(s, s.cur, x.(timeslice := x.timeslice - 1)), level), s.cur, level + 1);
    Dispatch(WithProc(t, s.cur, t.procs[s.cur].(state := RUNNABLE)))
  }

  ghost function TickUser(s: Kernel): (r: Kernel)
    requires Shape(s) && 0 <= s.procs[s.cur].rq < LEVELS && s.q[s.procs[s.cur].rq] != []
  {
    var x := s.procs[s.cur];
    if x.rq == 2 then s
    else if x.timeslice == 1 then Demoted(s)
    else WithProc(s, s.cur, x.(timeslice := x.timeslice - 1))
  }

  ghost function Allocated(s: Kernel): (r: Kernel)
    requires Shape(s)
  {
    var i := FindUnused(s.procs, 0);
    if i == NIL then s
    else s.(procs := s.procs[i := s.procs[i].(state := EMBRYO, pid := s.nextpid, rq := NIL)], np := s.np[s.cur := i],
      nextpid := s.nextpid + 1)
  }

  ghost function Adopted(s: Kernel): (r: Kernel)
    requires Shape(s) && 0 <= s.np[s.cur] < NPROC
  {
    WithProc(s, s.np[s.cur], s.procs[s.np[s.cur]].(parent := s.cur))
  }

  ghost function Abandoned(s: Kernel): (r: Kernel)
    requires Shape(s) && 0 <= s.np[s.cur] < NPROC
  {
    WithProc(s, s.np[s.cur], s.procs[s.np[s.cur]].(state := UNUSED, parent := NIL)).(np := s.np[s.cur := NIL])
  }

  ghost function Forked(s: Kernel): (r: Kernel)
    requires Shape(s) && 0 <= s.np[s.cur] < NPROC
  {
    var c := s.np[s.cur];
    Enter(WithProc(s, c, s.procs[c].(state := RUNNABLE)), c, 0).(np := s.np[s.cur := NIL])
  }

  ghost function Slept(s: Kernel, chan: Chan): (r: Kernel)
    requires Shape(s) && 0 <= s.procs[s.cur].rq < LEVELS && s.q[s.procs[s.cur].rq] != []
  {
    Block(s, s.procs[s.cur].(chan := chan, state := SLEEPING))
  }

  /** The children of the current process among the slots below n, handed over to init. */
  function HandedOver(s: Kernel, n: nat): (r: Kernel)
    requires n <= |s.procs|
  {
    s.(procs := seq(|s.procs|, i requires 0 <= i < |s.procs| =>
      if i < n && s.procs[i].parent == s.cur then s.procs[i].(parent := INIT) else s.procs[i]))
  }

  /** exit's loop over the children after it has visited the slots below n. */
  function Reparented(s: Kernel, n: nat): (r: Kernel)
    requires |s.q| == LEVELS && n <= |s.procs|
  {
    if exists i ::
      0 <= i < n && ZombieOf(s.procs[i], s.cur) then Woken(HandedOver(s, n), OfProc(INIT), |s.procs|)
      else HandedOver(s, n)
  }

  /** exit up to the point where the process becomes a zombie: its parent and, if need be, init are awake. */
  function Orphaned(s: Kernel): (r: Kernel)
    requires |s.procs| == NPROC && |s.q| == LEVELS && 0 <= s.cur < |s.procs|
  {
    Reparented(Woken(s, OfProc(s.procs[s.cur].parent), NPROC), NPROC)
  }

  /** The idle process of this CPU exits: nobody waits for it, it has no children and is on no queue. */
  ghost function IdleGone(s: Kernel): (r: Kernel)
    requires Shape(s)
  {
    Dispatch(WithProc(s, s.cur, s.procs[s.cur].(killed := false, state := ZOMBIE)))
  }

  /** The end of exit. */
  ghost function Zombie(s: Kernel): (r: Kernel)
    requires Shape(s) && 0 <= s.procs[s.cur].rq < LEVELS && s.q[s.procs[s.cur].rq] != []
  {
    Block(s, s.procs[s.cur].(killed := false, state := ZOMBIE))
  }

  function Reaped(s: Kernel, c: int): (r: Kernel)
    requires 0 <= c < |s.procs|
  {
    WithProc(s, c, s.procs[c].(state := UNUSED, pid := 0, parent := NIL))
  }

  function Killed(s: Kernel, pid: int): (r: Kernel) {
    var p := FindPid(s.procs, pid, 0);
    if p == NIL then s else WithProc(s, p, s.procs[p].(killed := true))
  }
}
