/** The console's input ring in place (console.c). */
module Consoles {
  import opened Words
  import opened ConsoleSpec

  class Console {
    const buf: array<int>
    var r: int
    var w: int
    var e: int

    ghost predicate Valid(d: Editor)
      reads this, buf
    {
      Holds(buf[..], r, w, e, d)
    }

    constructor ()
      ensures Valid(Editor([], 0, [])) && fresh(buf)
    {
      buf := new int[INPUT_BUF];
      r, w, e := 0, 0, 0;
    }

    /** console_intr on the characters getc returns before it runs out. */
    method Intr(cs: seq<int>, ghost d: Editor) returns (woke: bool)
      requires Valid(d)
      modifies this, buf
      ensures Valid(TypedAll(d, cs)) && r == old(r)
      ensures woke <==> TypedAll(d, cs).committed != d.committed
    {
      hide Holds, Typed;
      woke := false;
      var i := 0;
      assert cs[..0] == [];
      while i < |cs|
        invariant 0 <= i <= |cs| && Valid(TypedAll(d, cs[..i])) && r == old(r)
        invariant woke <==> TypedAll(d, cs[..i]).committed != d.committed
        invariant d.committed <= TypedAll(d, cs[..i]).committed
      {
        assert cs[..i + 1][..i] == cs[..i];
        KeySound(TypedAll(d, cs[..i]), cs[i], buf[..], r, w, e);
        var wake := Key(cs[i], TypedAll(d, cs[..i]));
        woke := woke || wake;
        i := i + 1;
      }
      assert cs[..i] == cs;
    }

    /** One round of console_intr. */
    method Key(c: int, ghost d: Editor) returns (woke: bool)
      requires Valid(d)
      modifies this, buf
      ensures Valid(Typed(d, c)) && r == old(r)
      ensures woke <==> Typed(d, c).committed != d.committed
    {
      hide Holds;
      woke := false;
      Tests(buf[..], r, w, e, d);
      Rooms(buf[..], r, w, e, d);
      if c == CTRL_P {
      } else if c == CTRL_U {
        Kill(d);
      } else if c == CTRL_H {
        if e != w {
          BackHolds(buf[..], r, w, e, d);
          e := (e - 1) % UINT;
        }
      } else if c != 0 && (e - r) % UINT < INPUT_BUF {
        PutHolds(buf[..], r, w, e, d, c);
        ghost var before := buf[..];
        buf[e % INPUT_BUF] := c;
        assert buf[..] == before[e % INPUT_BUF := c];
        ghost var more := Editor(d.committed + (d.line + [c]), d.taken, []);
        Tests(buf[..], r, (e + 1) % UINT, (e + 1) % UINT, more);
        e := (e + 1) % UINT;
        FullTest(e, r, |d.committed| + |d.line| + 1, d.taken);
        if c == NEWLINE || c == CTRL_D || e == (r + INPUT_BUF) % UINT {
          w := e;
          woke := true;
        }
      }
    }

    /** Control-U: back to the last newline that is not committed; there is none, so the whole line goes. */
    method Kill(ghost d: Editor)
      requires Valid(d)
      modifies this`e
      ensures Valid(d.(line := []))
    {
      hide Holds;
      ghost var line := d.line;
      Tests(buf[..], r, w, e, d);
      Rooms(buf[..], r, w, e, d);
      assert d.(line := line) == d;
      if line != [] {
        BackHolds(buf[..], r, w, e, d);
      }
      while e != w && buf[(e - 1) % UINT % INPUT_BUF] != NEWLINE
        invariant line <= d.line && Valid(d.(line := line)) && buf.Length == INPUT_BUF && 0 <= e < UINT
        invariant e == w <==> line == []
        invariant line != [] ==> buf[(e - 1) % UINT % INPUT_BUF] == line[|line| - 1]
        decreases |line|
      {
        BackHolds(buf[..], r, w, e, d.(line := line));
        e := (e - 1) % UINT;
        line := line[..|line| - 1];
        Tests(buf[..], r, w, e, d.(line := line));
        if line != [] {
          BackHolds(buf[..], r, w, e, d.(line := line));
        }
      }
    }

    /** A section of console_read: n0 of the target bytes are still wanted. */
    method Read(n0: int, target: int, killed: bool, ghost d: Editor) returns (got: seq<int>, out: Outcome)
      requires Valid(d) && n0 <= target
      modifies this`r
      ensures d.taken <= |d.committed|
      ensures var run := ReadRun(d.committed[d.taken..], n0, target, killed);
        got == run.0 && out == run.2 && Valid(d.(taken := d.taken + run.1))
    {
      hide Holds, ReadRun, Shifted;
      got := [];
      var n := n0;
      ghost var k := 0;
      Rooms(buf[..], r, w, e, d);
      ghost var pending := d.committed[d.taken..];
      assert d.(taken := d.taken + 0) == d && pending[0..] == pending;
      NotShifted(ReadRun(pending, n0, target, killed));
      while n > 0
        invariant 0 <= k <= |pending| && Valid(d.(taken := d.taken + k)) && n <= target
        invariant ReadRun(pending, n0, target, killed) == Shifted(got, k, ReadRun(pending[k..], n, target, killed))
        decreases n
      {
        ghost var now := d.(taken := d.taken + k);
        Tests(buf[..], r, w, e, now);
        ShiftedStep(got, k, pending, n, target, killed);
        if r == w {
          return got, if killed then Failed else Asleep;
        }
        ReadHolds(buf[..], r, w, e, now);
        StepBack(r);
        var c := buf[r % INPUT_BUF];
        r := (r + 1) % UINT;
        assert now.(taken := now.taken + 1) == d.(taken := d.taken + (k + 1));
        if c == CTRL_D {
          if n < target {
            r := (r - 1) % UINT;
          }
          return got, Finished;
        }
        got := got + [c];
        n := n - 1;
        k := k + 1;
        if c == NEWLINE {
          return got, Finished;
        }
      }
      ShiftedStep(got, k, pending, n, target, killed);
      return got, Finished;
    }
  }

  lemma StepBack(r: int)
    requires 0 <= r < UINT
    ensures ((r + 1) % UINT - 1) % UINT == r
  {
  }

  ghost function Shifted(got: seq<int>, k: nat, r: (seq<int>, nat, Outcome)): (seq<int>, nat, Outcome) {
    (got + r.0, k + r.1, r.2)
  }

  lemma NotShifted(r: (seq<int>, nat, Outcome))
    ensures Shifted([], 0, r) == r
  {
    assert [] + r.0 == r.0;
  }

  /** The reading loop, one character on. */
  lemma ShiftedStep(got: seq<int>, k: nat, pending: seq<int>, n: int, target: int, killed: bool)
    requires k <= |pending|
    ensures var s := Shifted(got, k, ReadRun(pending[k..], n, target, killed));
      && (n <= 0 ==> s == (got, k, Finished))
      && (0 < n && k == |pending| ==> s == (got, k, if killed then Failed else Asleep))
      && (0 < n && k < |pending| && pending[k] == CTRL_D ==> s == (got, if n < target then k else k + 1, Finished))
      && (0 < n && k < |pending| && pending[k] == NEWLINE ==> s == (got + [NEWLINE], k + 1, Finished))
      && (0 < n && k < |pending| && pending[k] != CTRL_D && pending[k] != NEWLINE ==>
            s == Shifted(got + [pending[k]], k + 1, ReadRun(pending[k + 1..], n - 1, target, killed)))
  {
    assert got + [] == got;
    if 0 < n && k < |pending| {
      assert pending[k..][0] == pending[k] && pending[k..][1..] == pending[k + 1..];
      var tail := ReadRun(pending[k + 1..], n - 1, target, killed).0;
      assert got + ([pending[k]] + tail) == got + [pending[k]] + tail;
    }
  }

  lemma Rooms(buf: seq<int>, r: int, w: int, e: int, d: Editor)
    requires Holds(buf, r, w, e, d)
    ensures Sound(d) && |buf| == INPUT_BUF && 0 <= r < UINT && 0 <= w < UINT && 0 <= e < UINT
  {
  }

  lemma KeySound(d: Editor, c: int, buf: seq<int>, r: int, w: int, e: int)
    requires Holds(buf, r, w, e, d)
    ensures d.committed <= Typed(d, c).committed
  {
    TypedSound(d, c);
  }

  lemma FullTest(e: int, r: int, n: int, taken: int)
    requires 0 <= taken <= n <= taken + INPUT_BUF && e == n % UINT && r == taken % UINT
    ensures e == (r + INPUT_BUF) % UINT <==> n == taken + INPUT_BUF
  {
    WrapDiff(taken + INPUT_BUF, n);
  }
}
