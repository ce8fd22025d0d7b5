/** struct pipe in place (pipe.c): the sections of pipewrite and piperead between taking and giving up the lock. */
module PipeRing {
  import opened Words
  import opened PipeSpec

  class Ring {
    const data: array<byte>
    var readp: int
    var writep: int
    var readopen: bool
    var writeopen: bool

    ghost predicate Valid()
      reads this
    {
      data.Length == PIPESIZE && 0 <= readp < UINT && 0 <= writep < UINT
    }

    ghost function Abs(): (d: Pipe)
      requires Valid()
      reads this, data
      ensures Sized(d)
    {
      Pipe(data[..], readp, writep, readopen, writeopen)
    }

    /** pipealloc, as far as the pipe itself goes. */
    constructor ()
      ensures Valid() && fresh(data) && readopen && writeopen
      ensures Holds(Abs(), [], [])
    {
      data := new byte[PIPESIZE];
      readp, writep, readopen, writeopen := 0, 0, true, true;
    }

    /** pipewrite from byte i on; the ghost arguments are the stream so far. */
    method Write(buf: seq<byte>, i0: nat, killed: bool, ghost stored: seq<byte>, ghost delivered: seq<byte>)
      returns (i: nat, out: Outcome, woke: bool)
      requires Valid() && i0 <= |buf| && Holds(Abs(), stored, delivered)
      modifies this, data
      ensures Valid() && readopen == old(readopen) && writeopen == old(writeopen)
      ensures (Abs(), i, out) == WriteRun(old(Abs()), buf, i0, killed)
      ensures woke == (out != Failed)
      ensures i0 <= i <= |buf| && Holds(Abs(), stored + buf[i0..i], delivered)
    {
      hide Holds;
      i := i0;
      WriteRunStream(Abs(), stored, delivered, buf, i0, killed);
      while i < |buf|
        invariant Valid() && i0 <= i <= |buf| && readopen == old(readopen) && writeopen == old(writeopen)
        invariant WriteRun(Abs(), buf, i, killed) == WriteRun(old(Abs()), buf, i0, killed)
      {
        if writep == (readp + PIPESIZE) % UINT {
          if !readopen || killed {
            return i, Failed, false;
          }
          return i, Asleep, true;
        }
        ghost var before := Abs();
        data[writep % PIPESIZE] := buf[i];
        writep := (writep + 1) % UINT;
        assert Abs() == Store(before, buf[i]);
        i := i + 1;
      }
      return i, Done, true;
    }

    /** piperead of at most n bytes. */
    method Read(n: int, killed: bool, ghost stored: seq<byte>, ghost delivered: seq<byte>)
      returns (got: seq<byte>, out: Outcome, woke: bool)
      requires Valid() && Holds(Abs(), stored, delivered)
      modifies this`readp
      ensures Valid() && (Abs(), got, out) == ReadRun(old(Abs()), n, killed)
      ensures woke == (out == Done)
      ensures Holds(Abs(), stored, delivered + got)
      ensures out == Asleep <==> stored == delivered && old(writeopen) && !killed
      ensures out == Failed <==> stored == delivered && old(writeopen) && killed
      ensures out == Done ==>
        && |delivered| <= |stored|
        && got == stored[|delivered|..][..Min(if n < 0 then 0 else n, |stored| - |delivered|)]
    {
      hide Holds;
      HoldsBounds(Abs(), stored, delivered);
      ReadRunStream(Abs(), stored, delivered, n, killed);
      got := [];
      assert delivered + [] == delivered;
      if readp == writep && writeopen {
        if killed {
          return got, Failed, false;
        }
        return got, Asleep, false;
      }
      DrainStream(Abs(), stored, delivered, n);
      var i := 0;
      while i < n
        invariant Valid() && 0 <= i && i == |got| && (0 < n ==> i <= n)
        invariant got + Drain(Abs(), n - i).1 == Drain(old(Abs()), n).1
          && Drain(Abs(), n - i).0 == Drain(old(Abs()), n).0
      {
        if readp == writep {
          break;
        }
        ghost var before := Abs();
        var b := data[readp % PIPESIZE];
        readp := (readp + 1) % UINT;
        assert Abs() == before.(readp := readp);
        assert got + ([b] + Drain(Abs(), n - i - 1).1) == got + [b] + Drain(Abs(), n - i - 1).1;
        got := got + [b];
        i := i + 1;
      }
      assert got + [] == got;
      return got, Done, true;
    }

    /** pipeclose: one end, and whoever waits for it; freed when both are now closed and the page goes back. */
    method Close(writable: bool) returns (freed: bool, wokeReaders: bool, wokeWriters: bool)
      requires Valid()
      modifies this`readopen, this`writeopen
      ensures Valid() && Abs() == if writable then old(Abs()).(writeopen := false) else old(Abs()).(readopen := false)
      ensures freed <==> !readopen && !writeopen
      ensures wokeReaders == writable && wokeWriters == !writable
    {
      wokeReaders, wokeWriters := false, false;
      if writable {
        writeopen := false;
        wokeReaders := true;
      } else {
        readopen := false;
        wokeWriters := true;
      }
      freed := !readopen && !writeopen;
    }
  }
}
