/** The buffer cache over an interrupt-driven disk, as a transition system on values (bio.c, ide.c, buf.h). */
module BioSpec {
  import opened Lists
  import opened FsSpec

  const NBUF: int := 10
  const NOBUF: int := -1

  datatype Buf = Buf(busy: bool, valid: bool, dirty: bool, dev: int, sector: int, data: Block)

  /**
   order is the LRU list, most recently released first; queue the disk queue, its head being served;
   disk the disk itself. Two things only the proof looks at: clean says that the holder of a buffer has
   not changed it since it last agreed with the disk, stamp when a buffer was last released.
   */
  datatype Cache = Cache(bufs: seq<Buf>, order: seq<int>, queue: seq<int>, disk: map<(int, int), Block>,
                         clean: seq<bool>, stamp: seq<int>, clock: int)

  function DiskAt(disk: map<(int, int), Block>, dev: int, sector: int): (d: Block) {
    if (dev, sector) in disk then disk[(dev, sector)] else Zeros()
  }

  predicate Caches(b: Buf, dev: int, sector: int) {
    (b.busy || b.valid) && b.dev == dev && b.sector == sector
  }

  // ---------------------------------------------------------------- invariant

  ghost predicate Listed(order: seq<int>) {
    && |order| == NBUF
    && (forall i {:trigger order[i]} :: 0 <= i < NBUF ==> 0 <= order[i] < NBUF)
    && (forall i, j {:trigger order[i], order[j]} :: 0 <= i < j < NBUF ==> order[i] != order[j])
  }

  ghost predicate Shape(c: Cache) {
    |c.bufs| == NBUF && Listed(c.order) && |c.clean| == NBUF && |c.stamp| == NBUF
  }

  /** No two buffers in use or valid are for the same sector. */
  ghost predicate NoTwins(c: Cache)
    requires Shape(c)
  {
    forall a, b {:trigger c.bufs[a], c.bufs[b]} ::
      0 <= a < b < NBUF && Caches(c.bufs[a], c.bufs[b].dev, c.bufs[b].sector) ==>
      !(c.bufs[b].busy || c.bufs[b].valid)
  }

  /** The disk queue holds distinct buffers with work to do; only queued buffers are dirty. */
  ghost predicate QueueOk(c: Cache)
    requires Shape(c)
  {
    && (forall i {:trigger c.queue[i]} :: 0 <= i < |c.queue| ==>
         0 <= c.queue[i] < NBUF && c.bufs[c.queue[i]].busy && (c.bufs[c.queue[i]].dirty || !c.bufs[c.queue[i]].valid))
    && (forall i, j {:trigger c.queue[i], c.queue[j]} :: 0 <= i < j < |c.queue| ==> c.queue[i] != c.queue[j])
    && (forall b {:trigger c.bufs[b]} :: 0 <= b < NBUF && c.bufs[b].dirty ==> b in c.queue)
  }

  /** A valid buffer that its holder has not changed holds what is on the disk. */
  ghost predicate Coherent(c: Cache)
    requires Shape(c)
  {
    forall b {:trigger c.bufs[b]} {:trigger c.clean[b]} :: 0 <= b < NBUF ==>
      && (!c.bufs[b].busy ==> c.clean[b])
      && (c.bufs[b].valid && c.clean[b] ==> c.bufs[b].data == DiskAt(c.disk, c.bufs[b].dev, c.bufs[b].sector))
  }

  /** The list is ordered by the time of the last release. */
  ghost predicate ByRelease(c: Cache)
    requires Shape(c)
  {
    && (forall i, j {:trigger c.order[i], c.order[j]} :: 0 <= i < j < NBUF ==>
         c.stamp[c.order[j]] < c.stamp[c.order[i]])
    && (forall b {:trigger c.stamp[b]} :: 0 <= b < NBUF ==> c.stamp[b] < c.clock)
  }

  ghost predicate Inv(c: Cache) {
    Shape(c) && NoTwins(c) && QueueOk(c) && Coherent(c) && ByRelease(c)
  }

  // ---------------------------------------------------------------- events

  /** The buffer that caches a sector, looked for from the front of the list. */
  function Hit(bufs: seq<Buf>, order: seq<int>, dev: int, sector: int): (b: int)
    requires forall i :: 0 <= i < |order| ==> 0 <= order[i] < |bufs|
    ensures b != NOBUF ==> b in order && Caches(bufs[b], dev, sector)
    ensures b == NOBUF ==> forall i {:trigger order[i]} :: 0 <= i < |order| ==> !Caches(bufs[order[i]], dev, sector)
  {
    if order == [] then NOBUF
    else if Caches(bufs[order[0]], dev, sector) then order[0]
    else
      var b := Hit(bufs, order[1..], dev, sector);
      assert forall i {:trigger order[i]} :: 0 < i < |order| ==> order[i] == order[1..][i - 1];
      b
  }

  /** The buffer to reuse, looked for from the back of the list. */
  function Victim(bufs: seq<Buf>, order: seq<int>): (b: int)
    requires forall i :: 0 <= i < |order| ==> 0 <= order[i] < |bufs|
    ensures b == NOBUF ==> forall i {:trigger order[i]} :: 0 <= i < |order| ==> bufs[order[i]].busy
    ensures b != NOBUF ==>
      0 <= b < |bufs| && !bufs[b].busy && exists k ::
      0 <= k < |order| && order[k] == b && forall i {:trigger order[i]} :: k < i < |order| ==> bufs[order[i]].busy
  {
    if order == [] then NOBUF
    else
      var last := |order| - 1;
      if !bufs[order[last]].busy then order[last]
      else
        var b := Victim(bufs, order[..last]);
        assert forall i {:trigger order[i]} :: 0 <= i < last ==> order[i] == order[..last][i];
        b
  }

  datatype Event =
    | Get(dev: int, sector: int)      // bget
    | StartRead(b: int)               // bread finds the buffer not valid and queues it in ide_rw
    | Modify(b: int, d: Block)        // the holder changes the data
    | StartWrite(b: int)              // bwrite
    | Interrupt                       // ide_intr
    | Release(b: int)                 // brelse

  /**
   A holder works on a buffer only while it holds it and the disk does not; it writes its changes before it
   releases it.
   */
  ghost predicate Enabled(c: Cache, e: Event)
    requires Shape(c)
  {
    match e
    case Get(dev, sector) => true
    case StartRead(b) => 0 <= b < NBUF && c.bufs[b].busy && !c.bufs[b].valid && b !in c.queue
    case Modify(b, d) => 0 <= b < NBUF && c.bufs[b].busy && c.bufs[b].valid && b !in c.queue
    case StartWrite(b) => 0 <= b < NBUF && c.bufs[b].busy && c.bufs[b].valid && b !in c.queue
    case Interrupt => true
    case Release(b) => 0 <= b < NBUF && c.bufs[b].busy && c.bufs[b].valid && b !in c.queue && c.clean[b]
  }

  /**
   bget: a hit is taken unless it is busy, when the caller sleeps; a miss reuses the victim; NOBUF stands for
   sleeping or the panic.
   */
  ghost function Got(c: Cache, dev: int, sector: int): (r: (Cache, int))
    requires Shape(c)
  {
    var hit := Hit(c.bufs, c.order, dev, sector);
    if hit != NOBUF then
      if c.bufs[hit].busy then (c, NOBUF) else (c.(bufs := c.bufs[hit := c.bufs[hit].(busy := true)]), hit)
    else
      var v := Victim(c.bufs, c.order);
      if v == NOBUF then (c, NOBUF)
      else (c.(bufs := c.bufs[v := Buf(true, false, false, dev, sector, c.bufs[v].data)]), v)
  }

  function WithBuf(c: Cache, b: int, x: Buf, clean: bool): (r: Cache)
    requires 0 <= b < |c.bufs| && b < |c.clean|
  {
    c.(bufs := c.bufs[b := x], clean := c.clean[b := clean])
  }

  /** The head request completes. */
  ghost function Served(c: Cache): (r: Cache)
    requires Shape(c) && QueueOk(c)
  {
    if c.queue == [] then c
    else
      var b := c.queue[0];
      var x := c.bufs[b];
      if x.dirty then
        WithBuf(c, b, x.(valid := true, dirty := false), true).(queue := c.queue[1..],
          disk := c.disk[(x.dev, x.sector) := x.data])
      else
        WithBuf(c, b, x.(valid := true, data := DiskAt(c.disk, x.dev, x.sector)), true).(queue := c.queue[1..])
  }

  ghost function Position(order: seq<int>, b: int): (k: int)
    requires b in order
    ensures 0 <= k < |order| && order[k] == b
  {
    var k :| 0 <= k < |order| && order[k] == b;
    k
  }

  function ToFront(order: seq<int>, k: int): (r: seq<int>)
    requires 0 <= k < |order|
  {
    [order[k]] + order[..k] + order[k + 1..]
  }

  ghost function MovedToFront(order: seq<int>, b: int): (r: seq<int>)
    requires b in order
  {
    ToFront(order, Position(order, b))
  }

  ghost function Step(c: Cache, e: Event): (r: Cache)
    requires Inv(c) && Enabled(c, e)
  {
    match e
    case Get(dev, sector) => Got(c, dev, sector).0
    case StartRead(b) => c.(queue := c.queue + [b])
    case Modify(b, d) => WithBuf(c, b, c.bufs[b].(data := d), false)
    case StartWrite(b) => c.(bufs := c.bufs[b := c.bufs[b].(dirty := true)], queue := c.queue + [b])
    case Interrupt => Served(c)
    case Release(b) =>
      AllListed(c.order, b);
      c.(bufs := c.bufs[b := c.bufs[b].(busy := false)], order := MovedToFront(c.order, b),
        stamp := c.stamp[b := c.clock], clock := c.clock + 1)
  }

  /** Ten distinct buffers out of ten are all of them. */
  lemma AllListed(order: seq<int>, b: int)
    requires Listed(order) && 0 <= b < NBUF
    ensures b in order
  {
    if b !in order {
      Pigeonhole(order + [b], NBUF);
    }
  }

  // ---------------------------------------------------------------- every event keeps the invariant

  /** With no hit in the list there is none in the cache. */
  lemma MissAll(c: Cache, dev: int, sector: int, b: int)
    requires Shape(c) && Hit(c.bufs, c.order, dev, sector) == NOBUF && 0 <= b < NBUF
    ensures !Caches(c.bufs[b], dev, sector)
  {
    AllListed(c.order, b);
    var k :| 0 <= k < NBUF && c.order[k] == b;
  }

  lemma GotKeeps(c: Cache, dev: int, sector: int)
    requires Inv(c)
    ensures Inv(Got(c, dev, sector).0)
    ensures var (r, b) := Got(c, dev, sector); b != NOBUF ==>
      && 0 <= b < NBUF && !c.bufs[b].busy && b !in c.queue
      && r.bufs[b].busy && r.bufs[b].dev == dev && r.bufs[b].sector == sector
      && (r.bufs[b].valid ==> r.bufs[b].data == DiskAt(r.disk, dev, sector))
  {
    var (r, b) := Got(c, dev, sector);
    if b != NOBUF && Hit(c.bufs, c.order, dev, sector) == NOBUF {
      forall a | 0 <= a < NBUF
        ensures !Caches(c.bufs[a], dev, sector)
      {
        MissAll(c, dev, sector, a);
      }
    }
  }

  /** bget reuses the buffer released longest ago among those not in use. */
  lemma VictimOldest(c: Cache, dev: int, sector: int, u: int)
    requires Inv(c) && Hit(c.bufs, c.order, dev, sector) == NOBUF && Victim(c.bufs, c.order) != NOBUF
    requires 0 <= u < NBUF && !c.bufs[u].busy
    ensures c.stamp[Victim(c.bufs, c.order)] <= c.stamp[u]
  {
    var v := Victim(c.bufs, c.order);
    var k :| 0 <= k < |c.order| && c.order[k] == v && forall i {:trigger c.order[i]} :: k < i < |c.order| ==>
      c.bufs[c.order[i]].busy;
    AllListed(c.order, u);
    var m :| 0 <= m < |c.order| && c.order[m] == u;
    assert m <= k;
  }

  /** Some buffer caches the sector. */
  predicate Cached(bufs: seq<Buf>, dev: int, sector: int) {
    exists a {:trigger bufs[a]} :: 0 <= a < |bufs| && Caches(bufs[a], dev, sector)
  }

  predicate AllBusy(bufs: seq<Buf>) {
    forall a {:trigger bufs[a]} :: 0 <= a < |bufs| ==> bufs[a].busy
  }

  /** b has the contents it had, and its caller has it to itself. */
  predicate Taken(c: Cache, r: Cache, b: int) {
    0 <= b < |c.bufs| && r == c.(bufs := c.bufs[b := c.bufs[b].(busy := true)])
  }

  /** Buffer b, free and released before all other free ones, is now for the sector, with nothing read yet. */
  ghost predicate Recycled(c: Cache, r: Cache, b: int, dev: int, sector: int) {
    && 0 <= b < |c.bufs| == |c.stamp| && !c.bufs[b].busy
    && (forall u {:trigger c.bufs[u]} :: 0 <= u < |c.bufs| && !c.bufs[u].busy ==> c.stamp[b] <= c.stamp[u])
    && r == c.(bufs := c.bufs[b := Buf(true, false, false, dev, sector, c.bufs[b].data)])
  }

  /**
   What bget does, told from the buffers alone: a free buffer for the sector is taken; a busy one makes the caller
   wait; without either the free buffer released longest ago is reused; without any free buffer it panics.
   */
  lemma GotExactly(c: Cache, dev: int, sector: int)
    requires Inv(c)
    ensures var (r, b) := Got(c, dev, sector);
      && (b == NOBUF <==>
           || (exists a {:trigger c.bufs[a]} :: 0 <= a < NBUF && c.bufs[a].busy && Caches(c.bufs[a], dev, sector))
           || (!Cached(c.bufs, dev, sector) && AllBusy(c.bufs)))
      && (b == NOBUF ==> r == c)
      && (forall a {:trigger c.bufs[a]} :: 0 <= a < NBUF && !c.bufs[a].busy && Caches(c.bufs[a], dev, sector) ==>
           b == a && Taken(c, r, a))
      && (!Cached(c.bufs, dev, sector) && !AllBusy(c.bufs) ==> Recycled(c, r, b, dev, sector))
  {
    var (r, b) := Got(c, dev, sector);
    var h := Hit(c.bufs, c.order, dev, sector);
    if h != NOBUF {
      assert 0 <= h < NBUF && Caches(c.bufs[h], dev, sector);
      forall a | 0 <= a < NBUF && a != h
        ensures !Caches(c.bufs[a], dev, sector)
      {
        OneCaches(c, a, h, dev, sector);
      }
    } else {
      hide Got;
      MissNone(c, dev, sector);
      VictimExactly(c, dev, sector);
    }
  }

  lemma OneCaches(c: Cache, a: int, b: int, dev: int, sector: int)
    requires Shape(c) && NoTwins(c) && 0 <= a < NBUF && 0 <= b < NBUF && a != b && Caches(c.bufs[b], dev, sector)
    ensures !Caches(c.bufs[a], dev, sector)
  {
    if a < b {
      assert c.bufs[a] == c.bufs[a] && c.bufs[b] == c.bufs[b];
    } else {
      assert c.bufs[b] == c.bufs[b] && c.bufs[a] == c.bufs[a];
    }
  }

  lemma MissNone(c: Cache, dev: int, sector: int)
    requires Shape(c) && Hit(c.bufs, c.order, dev, sector) == NOBUF
    ensures !Cached(c.bufs, dev, sector)
  {
    forall a | 0 <= a < NBUF
      ensures !Caches(c.bufs[a], dev, sector)
    {
      MissAll(c, dev, sector, a);
    }
  }

  lemma VictimNone(c: Cache)
    requires Shape(c)
    ensures Victim(c.bufs, c.order) == NOBUF <==> AllBusy(c.bufs)
  {
    if Victim(c.bufs, c.order) == NOBUF {
      forall u | 0 <= u < NBUF
        ensures c.bufs[u].busy
      {
        AllListed(c.order, u);
      }
    }
  }

  lemma VictimExactly(c: Cache, dev: int, sector: int)
    requires Inv(c) && Hit(c.bufs, c.order, dev, sector) == NOBUF
    ensures Victim(c.bufs, c.order) == NOBUF <==> AllBusy(c.bufs)
    ensures var (r, b) := Got(c, dev, sector);
      && b == Victim(c.bufs, c.order) && (b == NOBUF ==> r == c)
      && (b != NOBUF ==> Recycled(c, r, b, dev, sector))
  {
    VictimNone(c);
    var v := Victim(c.bufs, c.order);
    if v != NOBUF {
      forall u | 0 <= u < NBUF && !c.bufs[u].busy
        ensures c.stamp[v] <= c.stamp[u]
      {
        VictimOldest(c, dev, sector, u);
      }
    }
  }

  lemma ServedQueue(c: Cache)
    requires Shape(c) && QueueOk(c) && c.queue != []
    ensures Shape(Served(c)) && QueueOk(Served(c))
  {
    var r, b := Served(c), c.queue[0];
    assert forall i {:trigger r.queue[i]} :: 0 <= i < |r.queue| ==> r.queue[i] == c.queue[i + 1] && r.queue[i] != b;
    assert forall a :: a in c.queue && a != b ==> a in r.queue;
  }

  lemma ServedCoherent(c: Cache)
    requires Shape(c) && QueueOk(c) && NoTwins(c) && Coherent(c) && c.queue != [] && Shape(Served(c))
    ensures Coherent(Served(c))
  {
    var r, b := Served(c), c.queue[0];
    assert c.bufs[b].busy;
    forall a | 0 <= a < NBUF && r.bufs[a].valid && r.clean[a]
      ensures r.bufs[a].data == DiskAt(r.disk, r.bufs[a].dev, r.bufs[a].sector)
    {
      if a != b {
        assert !Caches(c.bufs[a], c.bufs[b].dev, c.bufs[b].sector) by {
          if a < b { assert c.bufs[b].busy; } else { assert c.bufs[a].valid; }
        }
      }
    }
  }

  lemma ServedKeeps(c: Cache)
    requires Inv(c)
    ensures Inv(Served(c))
  {
    if c.queue != [] {
      ServedQueue(c);
      ServedCoherent(c);
      hide QueueOk, Coherent;
    }
  }

  lemma FrontAt(order: seq<int>, k: int)
    requires Listed(order) && 0 <= k < NBUF
    ensures Listed(ToFront(order, k)) && ToFront(order, k)[0] == order[k]
    ensures forall i {:trigger ToFront(order, k)[i]} :: 1 <= i < NBUF ==>
      ToFront(order, k)[i] == (if i <= k then order[i - 1] else order[i]) && ToFront(order, k)[i] != order[k]
  {
    var r := ToFront(order, k);
    assert forall i {:trigger r[i]} :: 1 <= i < NBUF ==> r[i] == if i <= k then order[i - 1] else order[i];
    assert forall i {:trigger r[i]} :: 1 <= i < NBUF ==> r[i] != order[k];
  }

  lemma FrontKeeps(order: seq<int>, k: int, stamp: seq<int>, clock: int)
    requires Listed(order) && 0 <= k < NBUF && |stamp| == NBUF
    requires forall i, j {:trigger order[i], order[j]} :: 0 <= i < j < NBUF ==> stamp[order[j]] < stamp[order[i]]
    requires forall a {:trigger stamp[a]} :: 0 <= a < NBUF ==> stamp[a] < clock
    ensures Listed(ToFront(order, k))
    ensures var r, s := ToFront(order, k), stamp[order[k] := clock];
      forall i, j {:trigger r[i], r[j]} :: 0 <= i < j < NBUF ==> s[r[j]] < s[r[i]]
  {
    hide ToFront;
    FrontAt(order, k);
    var r, s := ToFront(order, k), stamp[order[k] := clock];
    forall i, j | 0 <= i < j < NBUF
      ensures s[r[j]] < s[r[i]]
    {
      assert r[j] != order[k] && s[r[j]] == stamp[r[j]];
    }
  }

  lemma ReleaseKeeps(c: Cache, b: int)
    requires Inv(c) && Enabled(c, Release(b))
    ensures Inv(Step(c, Release(b)))
  {
    AllListed(c.order, b);
    FrontKeeps(c.order, Position(c.order, b), c.stamp, c.clock);
  }

  lemma StepKeeps(c: Cache, e: Event)
    requires Inv(c) && Enabled(c, e)
    ensures Inv(Step(c, e))
  {
    hide Got, Served;
    match e
    case Get(dev, sector) => GotKeeps(c, dev, sector);
    case StartRead(b) => QueuedKeeps(c, b, false);
    case Modify(b, d) =>
    case StartWrite(b) => QueuedKeeps(c, b, true);
    case Interrupt => ServedKeeps(c);
    case Release(b) => ReleaseKeeps(c, b);
  }

  lemma QueuedKeeps(c: Cache, b: int, dirty: bool)
    requires Inv(c) && 0 <= b < NBUF && c.bufs[b].busy && b !in c.queue && (dirty || !c.bufs[b].valid)
    ensures Inv(c.(bufs := c.bufs[b := c.bufs[b].(dirty := dirty)], queue := c.queue + [b]))
  {
    var r := c.(bufs := c.bufs[b := c.bufs[b].(dirty := dirty)], queue := c.queue + [b]);
    assert forall a :: a in c.queue ==> a in r.queue;
    assert b in r.queue;
  }

  // ---------------------------------------------------------------- runs

  /** binit, over a disk with any contents. */
  function Start(disk: map<(int, int), Block>): (c: Cache) {
    Cache(seq(NBUF, i => Buf(false, false, false, 0, 0, Zeros())), seq(NBUF, i => NBUF - 1 - i), [], disk,
          seq(NBUF, i => true), seq(NBUF, i => i), NBUF)
  }

  lemma StartKeeps(disk: map<(int, int), Block>)
    ensures Inv(Start(disk))
  {
  }

  ghost predicate Possible(disk: map<(int, int), Block>, es: seq<Event>)
    decreases |es|, 0
  {
    es == [] || (var before := es[..|es| - 1];
      Possible(disk, before) && Enabled(StateAfter(disk, before), es[|es| - 1]))
  }

  /** The state the events lead to; the invariant holds in all of them. */
  ghost function StateAfter(disk: map<(int, int), Block>, es: seq<Event>): (c: Cache)
    requires Possible(disk, es)
    ensures Inv(c)
    decreases |es|, 1
  {
    if es == [] then StartKeeps(disk); Start(disk)
    else
      var before, e := es[..|es| - 1], es[|es| - 1];
      StepKeeps(StateAfter(disk, before), e);
      Step(StateAfter(disk, before), e)
  }

  /** What callers have handed to bwrite and the disk has not finished, by buffer. */
  ghost function InFlight(disk: map<(int, int), Block>, es: seq<Event>): (m: map<int, Block>)
    requires Possible(disk, es)
  {
    if es == [] then map[]
    else
      var before, e := es[..|es| - 1], es[|es| - 1];
      if e.StartWrite? then InFlight(disk, before)[e.b := StateAfter(disk, before).bufs[e.b].data]
        else InFlight(disk, before)
  }

  /** Sector by sector, what was handed to the latest bwrite that returned, or the initial contents. */
  ghost function Latest(disk: map<(int, int), Block>, es: seq<Event>): (m: map<(int, int), Block>)
    requires Possible(disk, es)
  {
    if es == [] then disk
    else
      var before, e := es[..|es| - 1], es[|es| - 1];
      var c := StateAfter(disk, before);
      if e.Interrupt? && c.queue != [] && 0 <= c.queue[0] < NBUF && c.bufs[c.queue[0]].dirty
        && c.queue[0] in InFlight(disk, before) then
        var x := c.bufs[c.queue[0]];
        Latest(disk, before)[(x.dev, x.sector) := InFlight(disk, before)[c.queue[0]]]
      else Latest(disk, before)
  }

  /** While a write is queued its data does not change, so what reaches the disk is what bwrite was given. */
  lemma {:induction false} DiskIsLatest(disk: map<(int, int), Block>, es: seq<Event>)
    requires Possible(disk, es)
    ensures StateAfter(disk, es).disk == Latest(disk, es)
    ensures forall b {:trigger StateAfter(disk, es).bufs[b]} :: 0 <= b < NBUF && StateAfter(disk, es).bufs[b].dirty ==>
      b in InFlight(disk, es) && InFlight(disk, es)[b] == StateAfter(disk, es).bufs[b].data
    decreases |es|
  {
    if es != [] {
      var before, e := es[..|es| - 1], es[|es| - 1];
      DiskIsLatest(disk, before);
      var c := StateAfter(disk, before);
      DirtyStays(c, e);
    }
  }

  lemma DirtyStays(c: Cache, e: Event)
    requires Inv(c) && Enabled(c, e)
    ensures forall b {:trigger Step(c, e).bufs[b]} ::
      0 <= b < NBUF && Step(c, e).bufs[b].dirty && e != StartWrite(b) ==>
      c.bufs[b].dirty && Step(c, e).bufs[b].data == c.bufs[b].data
    ensures Step(c, e).disk == if e.Interrupt? && c.queue != [] && c.bufs[c.queue[0]].dirty
      then var x := c.bufs[c.queue[0]]; c.disk[(x.dev, x.sector) := x.data] else c.disk
  {
    forall b | 0 <= b < NBUF && Step(c, e).bufs[b].dirty && e != StartWrite(b)
      ensures c.bufs[b].dirty && Step(c, e).bufs[b].data == c.bufs[b].data
    {
      match e
      case Get(dev, sector) =>
      case Interrupt =>
      case Modify(m, d) => assert b in c.queue by { assert c.bufs[b].dirty; }
      case _ =>
    }
  }

  /**
   The cache is transparent: whenever a caller holds a buffer that bread or bwrite has returned and it has
   not changed since, the buffer holds the data of the latest bwrite to its sector.
   */
  lemma BreadYieldsLatest(disk: map<(int, int), Block>, es: seq<Event>, b: int)
    requires Possible(disk, es) && 0 <= b < NBUF
    requires var c := StateAfter(disk, es); c.bufs[b].busy && c.bufs[b].valid && b !in c.queue && c.clean[b]
    ensures var x := StateAfter(disk, es).bufs[b]; x.data == DiskAt(Latest(disk, es), x.dev, x.sector)
  {
    DiskIsLatest(disk, es);
  }

  // ---------------------------------------------------------------- when a buffer was released

  function Releases(es: seq<Event>): nat
    decreases |es|
  {
    if es == [] then 0 else Releases(es[..|es| - 1]) + (if es[|es| - 1].Release? then 1 else 0)
  }

  /** The number of releases before the last one of b; below all of these, in the order of binit, if there was none. */
  function LastRelease(es: seq<Event>, b: int): int
    decreases |es|
  {
    if es == [] then b - NBUF
    else if es[|es| - 1] == Release(b) then Releases(es[..|es| - 1])
    else LastRelease(es[..|es| - 1], b)
  }

  /** The stamps order the buffers by when they were last released in the run. */
  lemma {:induction false} StampsAre(disk: map<(int, int), Block>, es: seq<Event>, b: int)
    requires Possible(disk, es) && 0 <= b < NBUF
    ensures StateAfter(disk, es).clock == NBUF + Releases(es)
    ensures StateAfter(disk, es).stamp[b] == NBUF + LastRelease(es, b)
    decreases |es|
  {
    if es != [] {
      StampsAre(disk, es[..|es| - 1], b);
      StampStep(StateAfter(disk, es[..|es| - 1]), es[|es| - 1], b);
    }
  }

  lemma StampStep(c: Cache, e: Event, b: int)
    requires Inv(c) && Enabled(c, e) && 0 <= b < NBUF
    ensures Step(c, e).clock == c.clock + (if e.Release? then 1 else 0)
    ensures |Step(c, e).stamp| == NBUF && Step(c, e).stamp[b] == if e == Release(b) then c.clock else c.stamp[b]
  {
    hide NoTwins, Coherent, ByRelease, Hit, Victim;
  }

  // ---------------------------------------------------------------- requests complete in order

  /** The request for b is done: it holds what is on the disk at its sector, and the disk is done with it. */
  ghost predicate Done(c: Cache, b: int, dev: int, sector: int)
    requires Shape(c)
  {
    && 0 <= b < NBUF && b !in c.queue && c.bufs[b].busy && c.bufs[b].valid && !c.bufs[b].dirty
    && c.bufs[b].dev == dev && c.bufs[b].sector == sector && c.bufs[b].data == DiskAt(c.disk, dev, sector)
  }

  /** An interrupt finishes the first request and moves the others up; nothing else touches a queued buffer. */
  lemma RequestAdvances(c: Cache, e: Event, k: nat)
    requires Inv(c) && Enabled(c, e) && k < |c.queue|
    ensures var b, t := c.queue[k], Step(c, e);
      && 0 <= b < NBUF && Shape(t)
      && (e.Interrupt? && k == 0 ==> Done(t, b, c.bufs[b].dev, c.bufs[b].sector))
      && (e.Interrupt? && k == 0 && c.bufs[b].dirty ==> t.bufs[b].data == c.bufs[b].data)
      && (e.Interrupt? && k > 0 ==> k - 1 < |t.queue| && t.queue[k - 1] == b && t.bufs[b] == c.bufs[b])
      && (!e.Interrupt? ==> k < |t.queue| && t.queue[k] == b && t.bufs[b] == c.bufs[b])
  {
    StepKeeps(c, e);
    assert c.bufs[c.queue[k]].busy;
    hide NoTwins, ByRelease, Hit, Victim;
    if e.Get? {
      GotFree(c, e.dev, e.sector);
    }
  }

  lemma GotFree(c: Cache, dev: int, sector: int)
    requires Inv(c)
    ensures var (r, b) := Got(c, dev, sector);
      r.queue == c.queue && forall a {:trigger r.bufs[a]} :: 0 <= a < NBUF && c.bufs[a].busy ==> r.bufs[a] == c.bufs[a]
  {
    GotKeeps(c, dev, sector);
  }

  function Interrupts(es: seq<Event>): nat
    decreases |es|
  {
    if es == [] then 0 else Interrupts(es[..|es| - 1]) + (if es[|es| - 1].Interrupt? then 1 else 0)
  }

  /** x waits in the buffer at place m of the queue. */
  predicate Waits(c: Cache, m: int, b: int, x: Buf) {
    0 <= m < |c.queue| && c.queue[m] == b && 0 <= b < |c.bufs| && c.bufs[b] == x
  }

  lemma Sized(c: Cache)
    requires Inv(c)
    ensures |c.bufs| == NBUF
  {
  }

  lemma StateMore(disk: map<(int, int), Block>, es: seq<Event>, e: Event)
    requires Possible(disk, es + [e])
    ensures Possible(disk, es) && Enabled(StateAfter(disk, es), e)
    ensures StateAfter(disk, es + [e]) == Step(StateAfter(disk, es), e)
  {
    hide Inv, Enabled, Step;
    assert (es + [e])[..|es|] == es;
  }

  /** A request moves up with every interrupt and stays as it is. */
  lemma {:induction false} RequestMoves(disk: map<(int, int), Block>, es: seq<Event>, more: seq<Event>, k: nat, b: int,
    x: Buf)
    requires Possible(disk, es) && Possible(disk, es + more) && Waits(StateAfter(disk, es), k, b, x)
    requires Interrupts(more) <= k
    ensures Waits(StateAfter(disk, es + more), k - Interrupts(more), b, x)
    decreases |more|
  {
    hide Inv, Enabled, Step, Possible, StateAfter;
    if more == [] {
      assert es + more == es;
    } else {
      var less, e := more[..|more| - 1], more[|more| - 1];
      assert es + more == es + less + [e];
      StateMore(disk, es + less, e);
      RequestMoves(disk, es, less, k, b, x);
      RequestAdvances(StateAfter(disk, es + less), e, k - Interrupts(less));
    }
  }

  /** bread and bwrite put their buffer behind all others in the queue; bwrite's data is to go to the disk. */
  lemma RequestStarts(c: Cache, b: int)
    requires Inv(c)
    ensures Enabled(c, StartRead(b)) ==>
      var t := Step(c, StartRead(b));
      Shape(t) && Waits(t, |c.queue|, b, c.bufs[b]) && !t.bufs[b].dirty
    ensures Enabled(c, StartWrite(b)) ==>
      var t := Step(c, StartWrite(b));
      Shape(t) && Waits(t, |c.queue|, b, c.bufs[b].(dirty := true))
  {
    hide NoTwins, Coherent, ByRelease;
  }

  /**
   Whatever happens in between, once the disk has interrupted for the requests before it and once more, bread's
   buffer holds what is on the disk.
   */
  lemma ReadCompletes(disk: map<(int, int), Block>, es: seq<Event>, b: int, more: seq<Event>)
    requires Possible(disk, es + [StartRead(b)] + more)
    requires Possible(disk, es) ==> Interrupts(more) == |StateAfter(disk, es).queue|
    ensures Possible(disk, es) && Possible(disk, es + [StartRead(b)] + more + [Interrupt])
    ensures var c, t := StateAfter(disk, es), StateAfter(disk, es + [StartRead(b)] + more + [Interrupt]);
      0 <= b < |c.bufs| && Shape(t) && Done(t, b, c.bufs[b].dev, c.bufs[b].sector)
  {
    hide Inv, Step, Possible, StateAfter, Done;
    PrefixPossible(disk, es + [StartRead(b)], more);
    StateMore(disk, es, StartRead(b));
    Sized(StateAfter(disk, es));
    RequestStarts(StateAfter(disk, es), b);
    Finishes(disk, es + [StartRead(b)], more, b);
  }

  /** Likewise the disk then holds, at the sector of bwrite's buffer, the data bwrite was given. */
  lemma WriteCompletes(disk: map<(int, int), Block>, es: seq<Event>, b: int, more: seq<Event>)
    requires Possible(disk, es + [StartWrite(b)] + more)
    requires Possible(disk, es) ==> Interrupts(more) == |StateAfter(disk, es).queue|
    ensures Possible(disk, es) && Possible(disk, es + [StartWrite(b)] + more + [Interrupt])
    ensures var c, t := StateAfter(disk, es), StateAfter(disk, es + [StartWrite(b)] + more + [Interrupt]);
      && 0 <= b < |c.bufs| && Shape(t) && Done(t, b, c.bufs[b].dev, c.bufs[b].sector)
      && DiskAt(t.disk, c.bufs[b].dev, c.bufs[b].sector) == c.bufs[b].data
  {
    hide Inv, Step, Possible, StateAfter, Shape;
    PrefixPossible(disk, es + [StartWrite(b)], more);
    StateMore(disk, es, StartWrite(b));
    Sized(StateAfter(disk, es));
    RequestStarts(StateAfter(disk, es), b);
    Finishes(disk, es + [StartWrite(b)], more, b);
  }

  lemma {:induction false} PrefixPossible(disk: map<(int, int), Block>, es: seq<Event>, more: seq<Event>)
    requires Possible(disk, es + more)
    ensures Possible(disk, es)
    decreases |more|
  {
    hide Inv, Enabled, Step, StateAfter;
    if more == [] {
      assert es + more == es;
    } else {
      assert (es + more)[..|es + more| - 1] == es + more[..|more| - 1];
      PrefixPossible(disk, es, more[..|more| - 1]);
    }
  }

  lemma Finishes(disk: map<(int, int), Block>, es: seq<Event>, more: seq<Event>, b: int)
    requires Possible(disk, es) && Possible(disk, es + more) && 0 <= b < |StateAfter(disk, es).bufs|
    requires Waits(StateAfter(disk, es), Interrupts(more), b, StateAfter(disk, es).bufs[b])
    ensures Possible(disk, es + more + [Interrupt])
    ensures var x, t := StateAfter(disk, es).bufs[b], StateAfter(disk, es + more + [Interrupt]);
      Shape(t) && Done(t, b, x.dev, x.sector) && (x.dirty ==> t.bufs[b].data == x.data)
  {
    hide Inv, Step, StateAfter, Done;
    RequestMoves(disk, es, more, Interrupts(more), b, StateAfter(disk, es).bufs[b]);
    InterruptPossible(disk, es + more);
    hide Possible;
    StateMore(disk, es + more, Interrupt);
    RequestAdvances(StateAfter(disk, es + more), Interrupt, 0);
  }

  lemma InterruptPossible(disk: map<(int, int), Block>, es: seq<Event>)
    requires Possible(disk, es)
    ensures Possible(disk, es + [Interrupt]) && Enabled(StateAfter(disk, es), Interrupt)
  {
    hide Inv, Step;
    assert (es + [Interrupt])[..|es|] == es;
  }
}
