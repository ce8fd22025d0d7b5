/** Pipes (pipe.c) on values: the ring, and every interleaving of the sections run under the pipe's lock. */
module PipeSpec {
  import opened Words

  const PIPESIZE: int := 512

  type byte = x: int | 0 <= x < 256

  /** struct pipe; readp and writep are unsigned and wrap around. */
  datatype Pipe = Pipe(data: seq<byte>, readp: int, writep: int, readopen: bool, writeopen: bool)

  /** How a section of pipewrite or piperead ends. */
  datatype Outcome = Done | Asleep | Failed

  predicate Sized(d: Pipe) {
    |d.data| == PIPESIZE && 0 <= d.readp < UINT && 0 <= d.writep < UINT
  }

  predicate Full(d: Pipe) {
    d.writep == (d.readp + PIPESIZE) % UINT
  }

  predicate Empty(d: Pipe) {
    d.readp == d.writep
  }

  function Store(d: Pipe, b: byte): (r: Pipe)
    requires Sized(d)
    ensures Sized(r)
  {
    d.(data := d.data[d.writep % PIPESIZE := b], writep := (d.writep + 1) % UINT)
  }

  /** pipewrite from byte i on, up to its return or its sleep. */
  function WriteRun(d: Pipe, buf: seq<byte>, i: nat, killed: bool): (r: (Pipe, nat, Outcome))
    requires Sized(d) && i <= |buf|
    ensures Sized(r.0) && i <= r.1 <= |buf|
    decreases |buf| - i
  {
    if i == |buf| then (d, i, Done)
    else if Full(d) then (d, i, if !d.readopen || killed then Failed else Asleep)
    else WriteRun(Store(d, buf[i]), buf, i + 1, killed)
  }

  /** The copying loop of piperead: the bytes taken, at most n. */
  function Drain(d: Pipe, n: int): (r: (Pipe, seq<byte>))
    requires Sized(d)
    ensures Sized(r.0)
    decreases n
  {
    if n <= 0 || Empty(d) then (d, [])
    else
      var r := Drain(d.(readp := (d.readp + 1) % UINT), n - 1);
      (r.0, [d.data[d.readp % PIPESIZE]] + r.1)
  }

  function ReadRun(d: Pipe, n: int, killed: bool): (r: (Pipe, seq<byte>, Outcome))
    requires Sized(d)
    ensures Sized(r.0)
  {
    if Empty(d) && d.writeopen then (d, [], if killed then Failed else Asleep)
    else var r := Drain(d, n); (r.0, r.1, Done)
  }

  // ---------------------------------------------------------------- the ring as a stream

  /** The ring holds the bytes stored and not yet delivered, wherever its wrapped indices stand. */
  ghost predicate Holds(d: Pipe, stored: seq<byte>, delivered: seq<byte>) {
    && Sized(d)
    && delivered <= stored
    && |stored| <= |delivered| + PIPESIZE
    && d.readp == |delivered| % UINT
    && d.writep == |stored| % UINT
    && (forall i {:trigger stored[i]} :: |delivered| <= i < |stored| ==> d.data[i % PIPESIZE] == stored[i])
  }

  lemma Tests(d: Pipe, stored: seq<byte>, delivered: seq<byte>)
    requires Holds(d, stored, delivered)
    ensures Full(d) <==> |stored| == |delivered| + PIPESIZE
    ensures Empty(d) <==> |stored| == |delivered|
    ensures Empty(d) <==> stored == delivered
  {
    var w, r := |stored|, |delivered|;
    assert w % UINT == r % UINT ==> (w - r) % UINT == 0;
    assert w % UINT == (r + PIPESIZE) % UINT ==> (r + PIPESIZE - w) % UINT == 0;
    assert |stored| == |delivered| ==> stored[..|delivered|] == stored;
  }

  lemma StoreHolds(d: Pipe, stored: seq<byte>, delivered: seq<byte>, b: byte)
    requires Holds(d, stored, delivered) && !Full(d)
    ensures Holds(Store(d, b), stored + [b], delivered)
  {
    hide Full;
    Tests(d, stored, delivered);
    var more := stored + [b];
    var r := Store(d, b);
    WrapStep(|stored|, PIPESIZE);
    forall i | |delivered| <= i < |more|
      ensures r.data[i % PIPESIZE] == more[i]
    {
      if i < |stored| {
        SlotsDiffer(i, |stored|, PIPESIZE);
        assert more[i] == stored[i];
      }
    }
  }

  function Min(a: int, b: int): int {
    if a < b then a else b
  }

  /** pipewrite appends, in order, as many bytes as there is room for; short of all of them it ends with a full ring. */
  lemma {:induction false} WriteRunStream(d: Pipe, stored: seq<byte>, delivered: seq<byte>, buf: seq<byte>, i: nat,
    killed: bool)
    requires Holds(d, stored, delivered) && i <= |buf|
    ensures var r := WriteRun(d, buf, i, killed);
      && Holds(r.0, stored + buf[i..r.1], delivered)
      && r.1 == Min(|buf|, i + |delivered| + PIPESIZE - |stored|)
      && r.0.readopen == d.readopen && r.0.writeopen == d.writeopen
      && (r.2 == Done <==> r.1 == |buf|)
      && (r.2 == Failed <==> r.1 < |buf| && (!d.readopen || killed))
    decreases |buf| - i
  {
    hide Holds, Store;
    HoldsBounds(d, stored, delivered);
    Tests(d, stored, delivered);
    if i == |buf| || Full(d) {
      assert stored + buf[i..i] == stored;
    } else {
      StoreHolds(d, stored, delivered, buf[i]);
      StoreFlags(d, buf[i]);
      WriteRunStream(Store(d, buf[i]), stored + [buf[i]], delivered, buf, i + 1, killed);
      var r := WriteRun(d, buf, i, killed);
      assert stored + [buf[i]] + buf[i + 1..r.1] == stored + buf[i..r.1];
    }
  }

  lemma HoldsBounds(d: Pipe, stored: seq<byte>, delivered: seq<byte>)
    requires Holds(d, stored, delivered)
    ensures Sized(d) && |delivered| <= |stored| <= |delivered| + PIPESIZE && delivered <= stored
  {
  }

  lemma StoreFlags(d: Pipe, b: byte)
    requires Sized(d)
    ensures Store(d, b).readopen == d.readopen && Store(d, b).writeopen == d.writeopen
  {
  }

  lemma DrainOne(d: Pipe, stored: seq<byte>, delivered: seq<byte>)
    requires Holds(d, stored, delivered) && !Empty(d)
    ensures |delivered| < |stored| && d.data[d.readp % PIPESIZE] == stored[|delivered|]
    ensures Holds(d.(readp := (d.readp + 1) % UINT), stored, stored[..|delivered| + 1])
  {
    hide Empty;
    Tests(d, stored, delivered);
    WrapStep(|delivered|, PIPESIZE);
    assert d.data[|delivered| % PIPESIZE] == stored[|delivered|];
    assert stored[..|delivered| + 1] <= stored;
  }

  /** piperead delivers the next bytes of the stream, as many as there are up to n. */
  lemma {:induction false} DrainStream(d: Pipe, stored: seq<byte>, delivered: seq<byte>, n: int)
    requires Holds(d, stored, delivered)
    ensures var r := Drain(d, n);
      && Holds(r.0, stored, delivered + r.1)
      && |r.1| == (if n <= 0 then 0 else Min(n, |stored| - |delivered|))
      && r.0.readopen == d.readopen && r.0.writeopen == d.writeopen
    decreases n
  {
    hide Holds;
    HoldsBounds(d, stored, delivered);
    Tests(d, stored, delivered);
    if n <= 0 || Empty(d) {
      assert delivered + [] == delivered;
    } else {
      DrainOne(d, stored, delivered);
      var d' := d.(readp := (d.readp + 1) % UINT);
      DrainStream(d', stored, stored[..|delivered| + 1], n - 1);
      var b := stored[|delivered|];
      assert stored[..|delivered| + 1] == delivered + [b];
      assert delivered + ([b] + Drain(d', n - 1).1) == delivered + [b] + Drain(d', n - 1).1;
    }
  }

  /**
   How piperead ends, told from the stream: with nothing to deliver and an open write end it sleeps or, killed,
   fails; otherwise it returns the next bytes, as many as there are up to n, and none at the end of the stream.
   */
  lemma ReadRunStream(d: Pipe, stored: seq<byte>, delivered: seq<byte>, n: int, killed: bool)
    requires Holds(d, stored, delivered)
    ensures var r := ReadRun(d, n, killed);
      && (r.2 == Asleep <==> stored == delivered && d.writeopen && !killed)
      && (r.2 == Failed <==> stored == delivered && d.writeopen && killed)
      && (r.2 != Done ==> r.0 == d && r.1 == [])
      && (r.2 == Done ==>
           && r.1 == stored[|delivered|..][..Min(if n < 0 then 0 else n, |stored| - |delivered|)]
           && Holds(r.0, stored, delivered + r.1)
           && r.0.readopen == d.readopen && r.0.writeopen == d.writeopen)
  {
    hide Holds, Empty, Drain;
    HoldsBounds(d, stored, delivered);
    Tests(d, stored, delivered);
    DrainStream(d, stored, delivered, n);
    var r := Drain(d, n);
    HoldsBounds(r.0, stored, delivered + r.1);
    assert stored[..|delivered| + |r.1|] == delivered + r.1;
    assert stored[|delivered|..][..|r.1|] == stored[|delivered|..|delivered| + |r.1|] == r.1;
  }
}
