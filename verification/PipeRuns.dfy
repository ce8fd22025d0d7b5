/** All runs of readers and writers on one pipe (pipe.c): the stream they share, and who may be asleep. */
module PipeRuns {
  import opened PipeSpec

  /** A process inside pipewrite, at byte i, or inside piperead. */
  datatype Task = Writing(buf: seq<byte>, i: nat, asleep: bool) | Reading(n: int, asleep: bool)

  datatype State = State(pipe: Pipe, tasks: map<int, Task>, killed: set<int>, stored: seq<byte>, delivered: seq<byte>)

  datatype Event =
    | StartWrite(p: int, buf: seq<byte>)
    | StartRead(p: int, n: int)
    | Run(p: int)
    | Kill(p: int)
    | CloseRead
    | CloseWrite

  /** An end is closed when no process is using it; a kill of a sleeping process is a panic (proc.c) and not a step. */
  predicate Enabled(s: State, e: Event) {
    match e
    case StartWrite(p, _) => p !in s.tasks && s.pipe.writeopen
    case StartRead(p, _) => p !in s.tasks && s.pipe.readopen
    case Run(p) => p in s.tasks && !s.tasks[p].asleep && (s.tasks[p].Writing? ==> s.tasks[p].i <= |s.tasks[p].buf|)
    case Kill(p) => !(p in s.tasks && s.tasks[p].asleep)
    case CloseRead => forall p {:trigger s.tasks[p]} :: p in s.tasks ==> s.tasks[p].Writing?
    case CloseWrite => forall p {:trigger s.tasks[p]} :: p in s.tasks ==> s.tasks[p].Reading?
  }

  /** wakeup(&p->readp) or wakeup(&p->writep). */
  function Woken(tasks: map<int, Task>, readers: bool): map<int, Task> {
    map p | p in tasks :: if tasks[p].Reading? == readers then tasks[p].(asleep := false) else tasks[p]
  }

  function Ended(tasks: map<int, Task>, p: int, out: Outcome, t: Task): map<int, Task> {
    if out == Asleep then tasks[p := t] else tasks - {p}
  }

  /** One section of pipewrite: readers are woken before the sleep and before the return, but not on failure. */
  function WriteStep(s: State, p: int): State
    requires Sized(s.pipe) && Enabled(s, Run(p)) && s.tasks[p].Writing?
  {
    var t := s.tasks[p];
    var r := WriteRun(s.pipe, t.buf, t.i, p in s.killed);
    var woken := if r.2 == Failed then s.tasks else Woken(s.tasks, true);
    s.(pipe := r.0, tasks := Ended(woken, p, r.2, Writing(t.buf, r.1, true)), stored := s.stored + t.buf[t.i..r.1])
  }

  /** One section of piperead: writers are woken before the return. */
  function ReadStep(s: State, p: int): State
    requires Sized(s.pipe) && Enabled(s, Run(p)) && s.tasks[p].Reading?
  {
    var t := s.tasks[p];
    var r := ReadRun(s.pipe, t.n, p in s.killed);
    var woken := if r.2 == Done then Woken(s.tasks, false) else s.tasks;
    s.(pipe := r.0, tasks := Ended(woken, p, r.2, Reading(t.n, true)), delivered := s.delivered + r.1)
  }

  function Step(s: State, e: Event): State
    requires Sized(s.pipe) && Enabled(s, e)
  {
    match e
    case StartWrite(p, buf) => s.(tasks := s.tasks[p := Writing(buf, 0, false)])
    case StartRead(p, n) => s.(tasks := s.tasks[p := Reading(n, false)])
    case Run(p) => if s.tasks[p].Writing? then WriteStep(s, p) else ReadStep(s, p)
    case Kill(p) => s.(killed := s.killed + {p})
    case CloseRead => s.(pipe := s.pipe.(readopen := false), tasks := Woken(s.tasks, false))
    case CloseWrite => s.(pipe := s.pipe.(writeopen := false), tasks := Woken(s.tasks, true))
  }

  // ---------------------------------------------------------------- the stream

  ghost predicate Stream(s: State) {
    && Holds(s.pipe, s.stored, s.delivered)
    && (forall p {:trigger s.tasks[p]} :: p in s.tasks && s.tasks[p].Writing? ==> s.tasks[p].i <= |s.tasks[p].buf|)
    && (forall p {:trigger s.tasks[p]} :: p in s.tasks && s.tasks[p].Reading? ==> s.pipe.readopen)
    && (forall p {:trigger s.tasks[p]} :: p in s.tasks && s.tasks[p].Writing? ==> s.pipe.writeopen)
  }

  lemma StepStream(s: State, e: Event)
    requires Stream(s) && Enabled(s, e)
    ensures Stream(Step(s, e))
    ensures s.stored <= Step(s, e).stored && s.delivered <= Step(s, e).delivered <= Step(s, e).stored
  {
    hide WriteRun, Drain;
    match e {
      case Run(p) =>
        var t := s.tasks[p];
        if t.Writing? {
          WriteRunStream(s.pipe, s.stored, s.delivered, t.buf, t.i, p in s.killed);
        } else {
          DrainStream(s.pipe, s.stored, s.delivered, t.n);
          assert s.delivered + [] == s.delivered;
        }
      case _ =>
    }
  }

  // ---------------------------------------------------------------- who may be asleep

  predicate Sleeps(s: State, p: int, reader: bool) {
    p in s.tasks && s.tasks[p].asleep && s.tasks[p].Reading? == reader
  }

  /**
   A reader sleeps only on an empty ring that may still be written, a writer only on a full one that may still be
   read.
   */
  ghost predicate Alert(s: State) {
    && (forall p {:trigger Sleeps(s, p, true)} :: Sleeps(s, p, true) ==>
         |s.stored| == |s.delivered| && s.pipe.writeopen)
    && (forall p {:trigger Sleeps(s, p, false)} :: Sleeps(s, p, false) ==>
         |s.stored| == |s.delivered| + PIPESIZE && s.pipe.readopen)
  }

  /** A killed writer that has more left than the ring can hold, while a reader is asleep. */
  ghost predicate Forgetful(s: State, e: Event) {
    && e.Run? && e.p in s.tasks && s.tasks[e.p].Writing? && e.p in s.killed
    && |s.tasks[e.p].buf| - s.tasks[e.p].i > PIPESIZE
    && exists q {:trigger Sleeps(s, q, true)} :: Sleeps(s, q, true)
  }

  lemma WriteAlert(s: State, p: int)
    requires Stream(s) && Alert(s) && Enabled(s, Run(p)) && s.tasks[p].Writing?
    ensures Alert(Step(s, Run(p))) <==> !Forgetful(s, Run(p))
  {
    hide WriteRun, Holds;
    HoldsBounds(s.pipe, s.stored, s.delivered);
    var t, u := s.tasks[p], Step(s, Run(p));
    WriteRunStream(s.pipe, s.stored, s.delivered, t.buf, t.i, p in s.killed);
    var r := WriteRun(s.pipe, t.buf, t.i, p in s.killed);
    assert |u.stored| == |s.stored| + (r.1 - t.i);
    assert forall q {:trigger Sleeps(u, q, true)} :: Sleeps(u, q, true) ==> r.2 == Failed && Sleeps(s, q, true);
    assert forall q {:trigger Sleeps(u, q, false)} :: q != p && Sleeps(u, q, false) ==> Sleeps(s, q, false);
    if Forgetful(s, Run(p)) {
      var q :| Sleeps(s, q, true);
      assert Sleeps(u, q, true) && r.1 == t.i + PIPESIZE;
    }
  }

  lemma ReadAlert(s: State, p: int)
    requires Stream(s) && Alert(s) && Enabled(s, Run(p)) && s.tasks[p].Reading?
    ensures Alert(Step(s, Run(p)))
  {
    hide Drain, Holds;
    HoldsBounds(s.pipe, s.stored, s.delivered);
    var t, u := s.tasks[p], Step(s, Run(p));
    Tests(s.pipe, s.stored, s.delivered);
    DrainStream(s.pipe, s.stored, s.delivered, t.n);
    var r := ReadRun(s.pipe, t.n, p in s.killed);
    assert forall q {:trigger Sleeps(u, q, false)} :: Sleeps(u, q, false) ==> r.2 != Done && Sleeps(s, q, false);
    assert forall q {:trigger Sleeps(u, q, true)} :: q != p && Sleeps(u, q, true) ==> Sleeps(s, q, true);
  }

  /** Every step keeps sleepers justified, except exactly the one that loses a wakeup. */
  lemma StepAlert(s: State, e: Event)
    requires Stream(s) && Alert(s) && Enabled(s, e)
    ensures Alert(Step(s, e)) <==> !Forgetful(s, e)
  {
    hide Holds, WriteRun, ReadRun;
    HoldsBounds(s.pipe, s.stored, s.delivered);
    match e {
      case Run(p) =>
        if s.tasks[p].Writing? {
          WriteAlert(s, p);
        } else {
          ReadAlert(s, p);
        }
      case CloseRead =>
        assert forall q {:trigger Sleeps(Step(s, e), q, true)} :: Sleeps(Step(s, e), q, true) ==> Sleeps(s, q, true);
      case CloseWrite =>
        assert forall q {:trigger Sleeps(Step(s, e), q, false)} :: Sleeps(Step(s, e), q, false) ==> Sleeps(s, q, false);
      case _ =>
        assert forall q, b {:trigger Sleeps(Step(s, e), q, b)} :: Sleeps(Step(s, e), q, b) ==> Sleeps(s, q, b);
    }
  }

  // ---------------------------------------------------------------- runs

  /** pipealloc. */
  function Fresh(data: seq<byte>): State {
    State(Pipe(data, 0, 0, true, true), map[], {}, [], [])
  }

  ghost predicate Possible(data: seq<byte>, es: seq<Event>)
    requires |data| == PIPESIZE
    decreases |es|, 0
  {
    es == [] || (Possible(data, es[..|es| - 1]) && Enabled(StateAfter(data, es[..|es| - 1]), es[|es| - 1]))
  }

  /** The state a run leads to: in all of them the bytes delivered are a prefix of those stored. */
  ghost function StateAfter(data: seq<byte>, es: seq<Event>): (s: State)
    requires |data| == PIPESIZE && Possible(data, es)
    ensures Stream(s)
    ensures s.delivered <= s.stored
    decreases |es|, 1
  {
    if es == [] then Fresh(data)
    else
      var s := StateAfter(data, es[..|es| - 1]);
      StepStream(s, es[|es| - 1]);
      Step(s, es[|es| - 1])
  }

  /** What has been stored or delivered stays so, whatever happens later. */
  lemma {:induction false} StreamGrows(data: seq<byte>, es: seq<Event>, n: nat)
    requires |data| == PIPESIZE && Possible(data, es) && n <= |es|
    ensures Possible(data, es[..n])
    ensures StateAfter(data, es[..n]).stored <= StateAfter(data, es).stored
    ensures StateAfter(data, es[..n]).delivered <= StateAfter(data, es).delivered
    decreases |es|
  {
    hide Step, Enabled, Stream;
    if n == |es| {
      assert es[..n] == es;
    } else {
      var before := es[..|es| - 1];
      assert before[..n] == es[..n];
      StreamGrows(data, before, n);
      StepStream(StateAfter(data, before), es[|es| - 1]);
    }
  }

  /** Without kills no wakeup is lost: every sleeper has its reason, so a reader and a writer never sleep at once. */
  lemma {:induction false} NeverBothAsleep(data: seq<byte>, es: seq<Event>)
    requires |data| == PIPESIZE && Possible(data, es) && forall i {:trigger es[i]} :: 0 <= i < |es| ==> !es[i].Kill?
    ensures var s := StateAfter(data, es);
      && s.killed == {} && Alert(s)
      && forall p, q :: !(Sleeps(s, p, true) && Sleeps(s, q, false))
    decreases |es|
  {
    hide Stream, Holds, WriteRun, ReadRun, Enabled;
    if es != [] {
      var s, e := StateAfter(data, es[..|es| - 1]), es[|es| - 1];
      NeverBothAsleep(data, es[..|es| - 1]);
      StepAlert(s, e);
    }
  }

  lemma PossibleOne(data: seq<byte>, es: seq<Event>, e: Event)
    requires |data| == PIPESIZE && Possible(data, es) && Enabled(StateAfter(data, es), e)
    ensures Possible(data, es + [e]) && StateAfter(data, es + [e]) == Step(StateAfter(data, es), e)
  {
    hide Step, Enabled, Stream;
    assert (es + [e])[..|es|] == es;
  }

  /** With a kill one can be lost: a reader sleeps, a killed writer fills the ring and fails, the reader sleeps on. */
  lemma LostWakeup(data: seq<byte>, buf: seq<byte>)
    requires |data| == PIPESIZE && |buf| > PIPESIZE
    ensures var es := [StartRead(1, 1)] + [Run(1)] + [StartWrite(2, buf)] + [Kill(2)] + [Run(2)];
      Possible(data, es) && Sleeps(StateAfter(data, es), 1, true)
        && StateAfter(data, es).delivered != StateAfter(data, es).stored
  {
    hide StateAfter, Possible, WriteRun;
    StartOf(data);
    var e0 := [];
    PossibleOne(data, e0, StartRead(1, 1));
    var e1 := [StartRead(1, 1)];
    assert e0 + [StartRead(1, 1)] == e1;
    PossibleOne(data, e1, Run(1));
    PossibleOne(data, e1 + [Run(1)], StartWrite(2, buf));
    PossibleOne(data, e1 + [Run(1)] + [StartWrite(2, buf)], Kill(2));
    var s := StateAfter(data, e1 + [Run(1)] + [StartWrite(2, buf)] + [Kill(2)]);
    assert Sleeps(s, 1, true) && s.tasks[2] == Writing(buf, 0, false) && 2 in s.killed;
    PossibleOne(data, e1 + [Run(1)] + [StartWrite(2, buf)] + [Kill(2)], Run(2));
    WriteRunStream(s.pipe, s.stored, s.delivered, buf, 0, true);
  }

  lemma StartOf(data: seq<byte>)
    requires |data| == PIPESIZE
    ensures Possible(data, []) && StateAfter(data, []) == Fresh(data)
  {
  }

  // ---------------------------------------------------------------- what a read gives, and the end of the stream

  /** The bytes stored and not yet delivered. */
  ghost function Pending(s: State): seq<byte>
    requires |s.delivered| <= |s.stored|
  {
    s.stored[|s.delivered|..]
  }

  /** A section of piperead: asleep, failed, or done with the next bytes of the stream and all writers awake. */
  lemma ReadGives(s: State, p: int)
    requires Stream(s) && Enabled(s, Run(p)) && s.tasks[p].Reading?
    ensures |s.delivered| <= |s.stored|
    ensures var t, n := Step(s, Run(p)), s.tasks[p].n;
      if Pending(s) == [] && s.pipe.writeopen then
        && t.pipe == s.pipe && t.delivered == s.delivered
        && t.tasks == if p in s.killed then s.tasks - {p} else s.tasks[p := Reading(n, true)]
      else
        && t.delivered == s.delivered + Pending(s)[..Min(if n < 0 then 0 else n, |Pending(s)|)]
        && p !in t.tasks && forall q {:trigger Sleeps(t, q, false)} :: !Sleeps(t, q, false)
  {
    hide Holds, ReadRun;
    HoldsBounds(s.pipe, s.stored, s.delivered);
    ReadRunStream(s.pipe, s.stored, s.delivered, s.tasks[p].n, p in s.killed);
    assert s.delivered + [] == s.delivered;
    assert Pending(s) == [] <==> s.stored == s.delivered by {
      assert s.stored == s.stored[..|s.delivered|] + Pending(s);
    }
  }

  /**
   A section of pipewrite: as many bytes as there is room for join the stream; with bytes left the writer sleeps where
   it stopped, or fails if it is killed or nobody reads; unless it fails all readers are awake.
   */
  lemma WriteGives(s: State, p: int)
    requires Stream(s) && Enabled(s, Run(p)) && s.tasks[p].Writing?
    ensures var t, buf, i := Step(s, Run(p)), s.tasks[p].buf, s.tasks[p].i;
      var m := Min(|buf|, i + |s.delivered| + PIPESIZE - |s.stored|);
      var fails := m < |buf| && (!s.pipe.readopen || p in s.killed);
      && i <= m && t.stored == s.stored + buf[i..m] && t.delivered == s.delivered
      && (m < |buf| && !fails ==> p in t.tasks && t.tasks[p] == Writing(buf, m, true))
      && (m == |buf| || fails ==> p !in t.tasks)
      && (fails ==> t.tasks == s.tasks - {p})
      && (!fails ==> forall q {:trigger Sleeps(t, q, true)} :: !Sleeps(t, q, true))
  {
    hide Holds, WriteRun;
    HoldsBounds(s.pipe, s.stored, s.delivered);
    WriteRunStream(s.pipe, s.stored, s.delivered, s.tasks[p].buf, s.tasks[p].i, p in s.killed);
  }

  /** What the latest pipewrite of p has put into the stream so far. */
  ghost function Put(data: seq<byte>, es: seq<Event>, p: int): seq<byte>
    requires |data| == PIPESIZE && Possible(data, es)
    decreases |es|
  {
    if es == [] then []
    else
      var before, e := es[..|es| - 1], es[|es| - 1];
      var s, t := StateAfter(data, before), StateAfter(data, es);
      if e.StartWrite? && e.p == p then []
      else if e == Run(p) && s.tasks[p].Writing? && |s.stored| <= |t.stored| then
        Put(data, before, p) + t.stored[|s.stored|..]
      else Put(data, before, p)
  }

  /**
   However often it sleeps in between, a pipewrite puts the bytes of its buffer into the stream in order, each
   once.
   */
  lemma {:induction false} WriterInOrder(data: seq<byte>, es: seq<Event>, p: int)
    requires |data| == PIPESIZE && Possible(data, es)
    ensures var s := StateAfter(data, es);
      p in s.tasks && s.tasks[p].Writing? ==>
        s.tasks[p].i <= |s.tasks[p].buf| && Put(data, es, p) == s.tasks[p].buf[..s.tasks[p].i]
    decreases |es|
  {
    hide Step, Stream, Enabled;
    if es == [] {
      StartOf(data);
    } else {
      var before, e := es[..|es| - 1], es[|es| - 1];
      assert es == before + [e];
      LastOf(data, before, e);
      WriterInOrder(data, before, p);
      PutStep(StateAfter(data, before), e, p);
      var s, t := StateAfter(data, before), StateAfter(data, es);
      if e == Run(p) && p in t.tasks && t.tasks[p].Writing? {
        Appended(s.stored, t.stored, t.tasks[p].buf, s.tasks[p].i, t.tasks[p].i);
      }
    }
  }

  lemma Appended(before: seq<byte>, after: seq<byte>, buf: seq<byte>, i: nat, j: nat)
    requires i <= j <= |buf| && after == before + buf[i..j]
    ensures buf[..i] + after[|before|..] == buf[..j]
  {
  }

  lemma PutStep(s: State, e: Event, p: int)
    requires Stream(s) && Enabled(s, e)
    ensures Stream(Step(s, e))
    ensures var t := Step(s, e);
      p in t.tasks && t.tasks[p].Writing? ==>
        if e.StartWrite? && e.p == p then t.tasks[p].i == 0
        else
          && p in s.tasks && s.tasks[p].Writing? && t.tasks[p].buf == s.tasks[p].buf
          && s.tasks[p].i <= t.tasks[p].i <= |t.tasks[p].buf|
          && (e == Run(p) ==> t.stored == s.stored + t.tasks[p].buf[s.tasks[p].i..t.tasks[p].i])
          && (e != Run(p) ==> t.tasks[p].i == s.tasks[p].i)
  {
    hide Holds, WriteRun, ReadRun;
    StepStream(s, e);
    HoldsBounds(s.pipe, s.stored, s.delivered);
    if e == Run(p) && s.tasks[p].Writing? {
      WriteGives(s, p);
    }
  }

  /** The write end is closed: nothing is added to the stream any more, and no reader is asleep. */
  ghost predicate AtEnd(s: State) {
    !s.pipe.writeopen && forall p {:trigger Sleeps(s, p, true)} :: !Sleeps(s, p, true)
  }

  lemma StepAtEnd(s: State, e: Event)
    requires Stream(s) && AtEnd(s) && Enabled(s, e)
    ensures AtEnd(Step(s, e)) && Step(s, e).stored == s.stored
  {
    hide Holds, ReadRun, WriteRun;
    HoldsBounds(s.pipe, s.stored, s.delivered);
    var t := Step(s, e);
    if e.Run? {
      ReadRunStream(s.pipe, s.stored, s.delivered, s.tasks[e.p].n, e.p in s.killed);
    }
    assert forall q {:trigger Sleeps(t, q, true)} :: Sleeps(t, q, true) ==> Sleeps(s, q, true);
  }

  lemma CloseAtEnd(s: State)
    requires Stream(s) && Enabled(s, CloseWrite)
    ensures AtEnd(Step(s, CloseWrite)) && Step(s, CloseWrite).stored == s.stored
    ensures Step(s, CloseWrite).delivered == s.delivered
  {
    hide Holds;
  }

  /**
   After the write end is closed, in every run: the stream is what it was, no read sleeps or fails, each gives the next
   bytes up to the end of the stream, and at the end none.
   */
  lemma {:induction false} EndOfStream(data: seq<byte>, es: seq<Event>, more: seq<Event>, p: int)
    requires |data| == PIPESIZE && Possible(data, es) && Possible(data, es + [CloseWrite] + more)
    ensures var s, t := StateAfter(data, es), StateAfter(data, es + [CloseWrite] + more);
      && t.stored == s.stored && AtEnd(t)
      && (Enabled(t, Run(p)) && t.tasks[p].Reading? ==>
           && |t.delivered| <= |t.stored| && p !in Step(t, Run(p)).tasks
           && Step(t, Run(p)).delivered ==
              t.delivered + Pending(t)[..Min(if t.tasks[p].n < 0 then 0 else t.tasks[p].n, |Pending(t)|)])
    decreases |more|
  {
    hide Step, Enabled, Stream, AtEnd;
    var closed := es + [CloseWrite];
    if more == [] {
      assert closed + more == closed;
      LastOf(data, es, CloseWrite);
      CloseAtEnd(StateAfter(data, es));
    } else {
      var less, e := more[..|more| - 1], more[|more| - 1];
      assert closed + more == closed + less + [e];
      LastOf(data, closed + less, e);
      EndOfStream(data, es, less, p);
      StepAtEnd(StateAfter(data, closed + less), e);
    }
    EndRead(StateAfter(data, closed + more), p);
  }

  lemma LastOf(data: seq<byte>, es: seq<Event>, e: Event)
    requires |data| == PIPESIZE && Possible(data, es + [e])
    ensures Possible(data, es) && Enabled(StateAfter(data, es), e)
    ensures StateAfter(data, es + [e]) == Step(StateAfter(data, es), e)
  {
    hide Step, Enabled, Stream;
    assert (es + [e])[..|es|] == es;
  }

  lemma EndRead(s: State, p: int)
    requires Stream(s) && AtEnd(s)
    ensures Enabled(s, Run(p)) && s.tasks[p].Reading? ==>
      && |s.delivered| <= |s.stored| && p !in Step(s, Run(p)).tasks
      && Step(s, Run(p)).delivered ==
         s.delivered + Pending(s)[..Min(if s.tasks[p].n < 0 then 0 else s.tasks[p].n, |Pending(s)|)]
  {
    hide Stream, Step;
    if Enabled(s, Run(p)) && s.tasks[p].Reading? {
      ReadGives(s, p);
    }
  }

  // ---------------------------------------------------------------- nobody reads

  /** The read end is closed: no writer is asleep, and none will be. */
  ghost predicate Broken(s: State) {
    !s.pipe.readopen && forall p {:trigger Sleeps(s, p, false)} :: !Sleeps(s, p, false)
  }

  lemma StepBroken(s: State, e: Event)
    requires Stream(s) && Broken(s) && Enabled(s, e)
    ensures Broken(Step(s, e)) && Step(s, e).delivered == s.delivered
  {
    hide Holds, ReadRun, WriteRun;
    HoldsBounds(s.pipe, s.stored, s.delivered);
    var t := Step(s, e);
    if e.Run? {
      WriteRunStream(s.pipe, s.stored, s.delivered, s.tasks[e.p].buf, s.tasks[e.p].i, e.p in s.killed);
    }
    assert forall q {:trigger Sleeps(t, q, false)} :: Sleeps(t, q, false) ==> Sleeps(s, q, false);
  }

  lemma CloseBroken(s: State)
    requires Stream(s) && Enabled(s, CloseRead)
    ensures Broken(Step(s, CloseRead)) && Step(s, CloseRead).delivered == s.delivered
  {
    hide Holds;
  }

  lemma BrokenWrite(s: State, p: int)
    requires Stream(s) && Broken(s)
    ensures Enabled(s, Run(p)) && s.tasks[p].Writing? ==> p !in Step(s, Run(p)).tasks
  {
    hide Stream, Step;
    if Enabled(s, Run(p)) && s.tasks[p].Writing? {
      WriteGives(s, p);
    }
  }

  /**
   After the read end is closed, in every run: nothing is delivered any more, and no write sleeps: it ends at once.
   */
  lemma {:induction false} BrokenPipe(data: seq<byte>, es: seq<Event>, more: seq<Event>, p: int)
    requires |data| == PIPESIZE && Possible(data, es) && Possible(data, es + [CloseRead] + more)
    ensures var s, t := StateAfter(data, es), StateAfter(data, es + [CloseRead] + more);
      && t.delivered == s.delivered && Broken(t)
      && (Enabled(t, Run(p)) && t.tasks[p].Writing? ==> p !in Step(t, Run(p)).tasks)
    decreases |more|
  {
    hide Step, Enabled, Stream, Broken;
    var closed := es + [CloseRead];
    if more == [] {
      assert closed + more == closed;
      LastOf(data, es, CloseRead);
      CloseBroken(StateAfter(data, es));
    } else {
      var less, e := more[..|more| - 1], more[|more| - 1];
      assert closed + more == closed + less + [e];
      LastOf(data, closed + less, e);
      BrokenPipe(data, es, less, p);
      StepBroken(StateAfter(data, closed + less), e);
    }
    BrokenWrite(StateAfter(data, closed + more), p);
  }

  lemma KilledStep(s: State, e: Event, p: int)
    requires Stream(s) && Enabled(s, e)
    ensures Sized(s.pipe) && (p in Step(s, e).killed <==> p in s.killed || e == Kill(p))
  {
    hide Holds, ReadRun, WriteRun;
    HoldsBounds(s.pipe, s.stored, s.delivered);
  }

  /** In every run the killed processes are those that were killed. */
  lemma {:induction false} KilledAre(data: seq<byte>, es: seq<Event>, p: int)
    requires |data| == PIPESIZE && Possible(data, es)
    ensures p in StateAfter(data, es).killed <==> Kill(p) in es
    decreases |es|
  {
    hide Step, Stream, Enabled;
    if es == [] {
      StartOf(data);
    } else {
      var before, e := es[..|es| - 1], es[|es| - 1];
      assert es == before + [e];
      LastOf(data, before, e);
      KilledAre(data, before, p);
      KilledStep(StateAfter(data, before), e, p);
    }
  }
}
