/** Who holds a buffer, and how long what its holder writes into it stays there (bio.c). */
module BioHolds {
  import opened FsSpec
  import opened BioSpec

  // ---------------------------------------------------------------- who holds a buffer

  /** The event is a bget that returns buffer b. */
  ghost predicate Returns(c: Cache, e: Event, b: int)
    requires Inv(c)
  {
    e.Get? && Got(c, e.dev, e.sector).1 == b
  }

  lemma BusyStep(c: Cache, e: Event, b: int)
    requires Inv(c) && Enabled(c, e) && 0 <= b < NBUF
    ensures |c.bufs| == |Step(c, e).bufs| == NBUF
    ensures Step(c, e).bufs[b].busy <==> Returns(c, e, b) || (c.bufs[b].busy && e != Release(b))
  {
    if e.Get? {
      GotExactly(c, e.dev, e.sector);
      GotKeeps(c, e.dev, e.sector);
    }
    hide Coherent, ByRelease;
  }

  /** A bget has returned b and its holder has not released it since. */
  ghost predicate HeldSince(disk: map<(int, int), Block>, es: seq<Event>, b: int)
    requires Possible(disk, es)
    decreases |es|
  {
    es != [] &&
      var before, e := es[..|es| - 1], es[|es| - 1];
      Returns(StateAfter(disk, before), e, b) || (HeldSince(disk, before, b) && e != Release(b))
  }

  lemma NoneHeld(disk: map<(int, int), Block>, b: int)
    requires 0 <= b < NBUF
    ensures |Start(disk).bufs| == NBUF && !Start(disk).bufs[b].busy
  {
  }

  /** In every run a buffer is busy exactly if a bget has returned it since it was last released. */
  lemma {:induction false} BusyExactly(disk: map<(int, int), Block>, es: seq<Event>, b: int)
    requires Possible(disk, es) && 0 <= b < NBUF
    ensures |StateAfter(disk, es).bufs| == NBUF
    ensures StateAfter(disk, es).bufs[b].busy <==> HeldSince(disk, es, b)
    decreases |es|
  {
    if es == [] {
      NoneHeld(disk, b);
    } else {
      hide Inv, Enabled, Step, Returns;
      BusyExactly(disk, es[..|es| - 1], b);
      BusyStep(StateAfter(disk, es[..|es| - 1]), es[|es| - 1], b);
    }
  }

  // ---------------------------------------------------------------- what its holder writes into it

  /** Nothing the holder of b does with it. */
  predicate ByOthers(e: Event, b: int) {
    !(e.Modify? && e.b == b) && e != StartRead(b) && e != StartWrite(b) && e != Release(b)
  }

  /** b is held, not on its way to or from the disk, and contains x. */
  predicate Contains(c: Cache, b: int, x: Buf) {
    0 <= b < |c.bufs| && c.bufs[b] == x && x.busy && b !in c.queue
  }

  lemma OthersStep(c: Cache, e: Event, b: int, x: Buf)
    requires Inv(c) && Enabled(c, e) && Contains(c, b, x) && ByOthers(e, b)
    ensures Contains(Step(c, e), b, x)
  {
    if e.Get? {
      GotFree(c, e.dev, e.sector);
    }
    hide Coherent, ByRelease, NoTwins;
  }

  lemma ModifyStep(c: Cache, b: int, d: Block)
    requires Inv(c) && Enabled(c, Modify(b, d))
    ensures 0 <= b < |c.bufs| && Contains(Step(c, Modify(b, d)), b, c.bufs[b].(data := d))
  {
  }

  lemma {:induction false} OthersRun(disk: map<(int, int), Block>, es: seq<Event>, more: seq<Event>, b: int, x: Buf)
    requires Possible(disk, es) && Possible(disk, es + more) && Contains(StateAfter(disk, es), b, x)
    requires forall i {:trigger more[i]} :: 0 <= i < |more| ==> ByOthers(more[i], b)
    ensures Contains(StateAfter(disk, es + more), b, x)
    decreases |more|
  {
    hide Inv, Enabled, Step, Possible, StateAfter, Contains, ByOthers;
    if more == [] {
      assert es + more == es;
    } else {
      var less, e := more[..|more| - 1], more[|more| - 1];
      assert es + more == es + less + [e];
      StateMore(disk, es + less, e);
      OthersRun(disk, es, less, b, x);
      OthersStep(StateAfter(disk, es + less), e, b, x);
    }
  }

  /**
   What a holder writes into its buffer and hands to bwrite is on the disk, at the sector it asked for, once the
   requests before it and its own are done, whatever others do meanwhile.
   */
  lemma WrittenReachesDisk(disk: map<(int, int), Block>, es: seq<Event>, b: int, d: Block, idle: seq<Event>,
    more: seq<Event>)
    requires Possible(disk, es + [Modify(b, d)] + idle + [StartWrite(b)] + more)
    requires forall i {:trigger idle[i]} :: 0 <= i < |idle| ==> ByOthers(idle[i], b)
    requires Possible(disk, es + [Modify(b, d)] + idle) ==>
      Interrupts(more) == |StateAfter(disk, es + [Modify(b, d)] + idle).queue|
    ensures Possible(disk, es) && Possible(disk, es + [Modify(b, d)] + idle + [StartWrite(b)] + more + [Interrupt])
    ensures var c := StateAfter(disk, es);
      var t := StateAfter(disk, es + [Modify(b, d)] + idle + [StartWrite(b)] + more + [Interrupt]);
      0 <= b < |c.bufs| && DiskAt(t.disk, c.bufs[b].dev, c.bufs[b].sector) == d
  {
    hide Inv, Step, Possible, StateAfter, Done, DiskAt;
    var wrote := es + [Modify(b, d)];
    PrefixPossible(disk, wrote + idle + [StartWrite(b)], more);
    PrefixPossible(disk, wrote + idle, [StartWrite(b)]);
    PrefixPossible(disk, wrote, idle);
    StateMore(disk, es, Modify(b, d));
    ModifyStep(StateAfter(disk, es), b, d);
    OthersRun(disk, wrote, idle, b, StateAfter(disk, es).bufs[b].(data := d));
    WriteCompletes(disk, wrote + idle, b, more);
  }
}
