/** The console's line editor and reader on values (console.c). */
module ConsoleSpec {
  import opened Words

  const INPUT_BUF: int := 128
  const CTRL_D: int := 4
  const CTRL_H: int := 8
  const NEWLINE: int := 10
  const CTRL_P: int := 16
  const CTRL_U: int := 21

  /** Everything committed so far, how much of it has been read, and the line being edited. */
  datatype Editor = Editor(committed: seq<int>, taken: nat, line: seq<int>)

  /** A line holds nothing that would have committed it, and the ring has room for all that is unread. */
  predicate Sound(d: Editor) {
    && d.taken <= |d.committed|
    && |d.committed| + |d.line| <= d.taken + INPUT_BUF
    && (forall i {:trigger d.line[i]} :: 0 <= i < |d.line| ==> d.line[i] != NEWLINE && d.line[i] != CTRL_D)
  }

  /** One character from the keyboard. */
  function Typed(d: Editor, c: int): Editor {
    if c == CTRL_P then d
    else if c == CTRL_U then d.(line := [])
    else if c == CTRL_H then if d.line == [] then d else d.(line := d.line[..|d.line| - 1])
    else if c == 0 || |d.committed| + |d.line| - d.taken >= INPUT_BUF then d
    else
      var line := d.line + [c];
      if c == NEWLINE || c == CTRL_D
        || |d.committed| + |line| == d.taken + INPUT_BUF then Editor(d.committed + line, d.taken, [])
      else d.(line := line)
  }

  lemma TypedSound(d: Editor, c: int)
    requires Sound(d)
    ensures Sound(Typed(d, c)) && d.committed <= Typed(d, c).committed && Typed(d, c).taken == d.taken
  {
  }

  function TypedAll(d: Editor, cs: seq<int>): Editor
    decreases |cs|
  {
    if cs == [] then d else Typed(TypedAll(d, cs[..|cs| - 1]), cs[|cs| - 1])
  }

  /** A stretch of committed input as a reader sees it: without end-of-file marks. */
  function Data(s: seq<int>): seq<int>
    decreases |s|
  {
    if s == [] then [] else (if s[0] == CTRL_D then [] else [s[0]]) + Data(s[1..])
  }

  datatype Outcome = Finished | Asleep | Failed

  /**
   console_read with n of target bytes still wanted: the bytes taken, how much was consumed, and how it ended. A
   killed reader that would have to wait fails instead; what it has copied by then is consumed.
   */
  function ReadRun(pending: seq<int>, n: int, target: int, killed: bool): (r: (seq<int>, nat, Outcome))
    ensures r.1 <= |pending|
    decreases |pending|
  {
    if n <= 0 then ([], 0, Finished)
    else if pending == [] then ([], 0, if killed then Failed else Asleep)
    else if pending[0] == CTRL_D then ([], if n < target then 0 else 1, Finished)
    else if pending[0] == NEWLINE then ([NEWLINE], 1, Finished)
    else
      var r := ReadRun(pending[1..], n - 1, target, killed);
      ([pending[0]] + r.0, r.1 + 1, r.2)
  }

  /** What is read is exactly what was committed, in order, end-of-file marks left out; at most one line of it. */
  lemma {:induction false} ReadRunData(pending: seq<int>, n: int, target: int, killed: bool)
    requires n <= target
    ensures var r := ReadRun(pending, n, target, killed);
      && r.0 == Data(pending[..r.1])
      && |r.0| <= (if n < 0 then 0 else n)
      && (forall i {:trigger r.0[i]} :: 0 <= i < |r.0| - 1 ==> r.0[i] != NEWLINE)
      && (r.2 != Finished ==> r.1 == |pending| && |r.0| < n && (r.2 == Failed <==> killed))
    decreases |pending|
  {
    if n <= 0 || pending == [] {
    } else if pending[0] == CTRL_D || pending[0] == NEWLINE {
      assert pending[..1][1..] == [];
    } else {
      ReadRunData(pending[1..], n - 1, target, killed);
      var r := ReadRun(pending, n, target, killed);
      assert pending[..r.1][1..] == pending[1..][..r.1 - 1];
    }
  }

  /**
   An end-of-file mark gives a reader that has nothing yet an empty result, and is kept for the next one otherwise.
   */
  lemma {:induction false} EofExactly(pending: seq<int>, n: int, target: int, killed: bool)
    requires 0 < n <= target && ReadRun(pending, n, target, killed).2 == Finished
    ensures var r := ReadRun(pending, n, target, killed);
      r.0 == [] ==> r.1 == (if n < target then 0 else 1) && pending != [] && pending[0] == CTRL_D
    ensures var r := ReadRun(pending, n, target, killed);
      r.0 != [] && |r.0| < n && r.0[|r.0| - 1] != NEWLINE ==> r.1 < |pending| && pending[r.1] == CTRL_D && r.1 == |r.0|
    decreases |pending|
  {
    if pending[0] != CTRL_D && pending[0] != NEWLINE && 1 < n {
      EofExactly(pending[1..], n - 1, target, killed);
      var r, q := ReadRun(pending, n, target, killed), ReadRun(pending[1..], n - 1, target, killed);
      assert q.0 != [] ==> r.0[|r.0| - 1] == q.0[|q.0| - 1];
    }
  }

  // ---------------------------------------------------------------- runs

  datatype Event = Type(c: int) | Read(n: int, target: int, killed: bool)

  datatype State = State(d: Editor, delivered: seq<int>)

  /** A key, or a section of some reader's console_read. */
  function Step(s: State, e: Event): State
    requires s.d.taken <= |s.d.committed|
  {
    match e
    case Type(c) => s.(d := Typed(s.d, c))
    case Read(n, target, killed) =>
      var r := ReadRun(s.d.committed[s.d.taken..], n, target, killed);
      State(s.d.(taken := s.d.taken + r.1), s.delivered + r.0)
  }

  /** Readers together have got exactly the committed input they have consumed, without its end-of-file marks. */
  ghost predicate Delivered(s: State) {
    Sound(s.d) && s.delivered == Data(s.d.committed[..s.d.taken])
  }

  lemma {:induction false} DataConcat(a: seq<int>, b: seq<int>)
    ensures Data(a + b) == Data(a) + Data(b)
    decreases |a|
  {
    if a == [] {
      assert a + b == b;
    } else {
      assert (a + b)[1..] == a[1..] + b;
      DataConcat(a[1..], b);
    }
  }

  lemma StepDelivers(s: State, e: Event)
    requires Delivered(s) && (e.Read? ==> e.n <= e.target)
    ensures Delivered(Step(s, e)) && s.delivered <= Step(s, e).delivered && s.d.committed <= Step(s, e).d.committed
  {
    hide Data, Typed, ReadRun;
    match e {
      case Type(c) =>
        TypedSound(s.d, c);
        assert Typed(s.d, c).committed[..s.d.taken] == s.d.committed[..s.d.taken];
      case Read(n, target, killed) =>
        var pending := s.d.committed[s.d.taken..];
        var k := ReadRun(pending, n, target, killed).1;
        ReadRunData(pending, n, target, killed);
        DataConcat(s.d.committed[..s.d.taken], pending[..k]);
        assert s.d.committed[..s.d.taken] + pending[..k] == s.d.committed[..s.d.taken + k];
    }
  }

  ghost function Final(s: State, es: seq<Event>): (t: State)
    requires Delivered(s) && forall i {:trigger es[i]} :: 0 <= i < |es| && es[i].Read? ==> es[i].n <= es[i].target
    ensures Delivered(t) && s.delivered <= t.delivered
    decreases |es|
  {
    if es == [] then s
    else
      StepDelivers(s, es[0]);
      Final(Step(s, es[0]), es[1..])
  }

  // ---------------------------------------------------------------- the ring

  /** The ring holds all that is unread: committed input and the line, wherever its wrapped indices stand. */
  ghost predicate Holds(buf: seq<int>, r: int, w: int, e: int, d: Editor) {
    && Sound(d) && |buf| == INPUT_BUF
    && r == d.taken % UINT && w == |d.committed| % UINT && e == (|d.committed| + |d.line|) % UINT
    && (forall i {:trigger (d.committed + d.line)[i]} :: d.taken <= i < |d.committed| + |d.line| ==>
         buf[i % INPUT_BUF] == (d.committed + d.line)[i])
  }

  lemma WrapDiff(a: int, b: int)
    requires 0 <= b <= a < b + UINT
    ensures (a % UINT - b % UINT) % UINT == a - b
    ensures a % UINT == b % UINT <==> a == b
  {
    assert (a - b) % UINT == a - b;
  }

  lemma Tests(buf: seq<int>, r: int, w: int, e: int, d: Editor)
    requires Holds(buf, r, w, e, d)
    ensures 0 <= r < UINT && 0 <= w < UINT && 0 <= e < UINT
    ensures e == w <==> d.line == []
    ensures r == w <==> d.taken == |d.committed|
    ensures (e - r) % UINT == |d.committed| + |d.line| - d.taken
  {
    WrapDiff(|d.committed| + |d.line|, d.taken);
    WrapDiff(|d.committed| + |d.line|, |d.committed|);
    WrapDiff(|d.committed|, d.taken);
  }

  /** The edit index steps back over the last character of the line. */
  lemma BackHolds(buf: seq<int>, r: int, w: int, e: int, d: Editor)
    requires Holds(buf, r, w, e, d) && d.line != []
    ensures Holds(buf, r, w, (e - 1) % UINT, d.(line := d.line[..|d.line| - 1]))
    ensures buf[(e - 1) % UINT % INPUT_BUF] == d.line[|d.line| - 1]
  {
    var less := d.(line := d.line[..|d.line| - 1]);
    var n := |d.committed| + |d.line|;
    WrapStep(n, INPUT_BUF);
    WrapStep(n - 1, INPUT_BUF);
    assert (d.committed + d.line)[n - 1] == d.line[|d.line| - 1];
    forall i | d.taken <= i < n - 1
      ensures buf[i % INPUT_BUF] == (less.committed + less.line)[i]
    {
      assert (d.committed + d.line)[i] == (less.committed + less.line)[i];
    }
  }

  /** A character is put at the edit index; w2 says whether the line is committed with it. */
  lemma PutHolds(buf: seq<int>, r: int, w: int, e: int, d: Editor, c: int)
    requires Holds(buf, r, w, e, d) && |d.committed| + |d.line| - d.taken < INPUT_BUF
    ensures var more, e1 := buf[e % INPUT_BUF := c], (e + 1) % UINT;
      && (c != NEWLINE && c != CTRL_D ==> Holds(more, r, w, e1, d.(line := d.line + [c])))
      && Holds(more, r, e1, e1, Editor(d.committed + (d.line + [c]), d.taken, []))
  {
    var n := |d.committed| + |d.line|;
    var more, all := buf[e % INPUT_BUF := c], d.committed + (d.line + [c]);
    WrapStep(n, INPUT_BUF);
    forall i | d.taken <= i < n + 1
      ensures more[i % INPUT_BUF] == all[i]
    {
      if i < n {
        SlotsDiffer(i, n, INPUT_BUF);
        assert (d.committed + d.line)[i] == all[i];
      }
    }
    assert all + [] == all;
  }

  lemma ReadHolds(buf: seq<int>, r: int, w: int, e: int, d: Editor)
    requires Holds(buf, r, w, e, d) && d.taken < |d.committed|
    ensures buf[r % INPUT_BUF] == d.committed[d.taken]
    ensures Holds(buf, (r + 1) % UINT, w, e, d.(taken := d.taken + 1))
  {
    assert (d.committed + d.line)[d.taken] == d.committed[d.taken];
    WrapStep(d.taken, INPUT_BUF);
  }
}
