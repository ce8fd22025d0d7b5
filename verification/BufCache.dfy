/** The buffer cache and the disk driver as the kernel executes them (bio.c, ide.c), proved against BioSpec. */
module BufCaches {
  import opened Lists
  import opened FsSpec
  import opened BioSpec

  /** The list head bufhead takes part in the list as one more node. */
  const HEAD: int := NBUF
  const NIL: int := -1

  // ---------------------------------------------------------------- the LRU list

  /** Along next from the head, and in reverse along prev, the list holds exactly order. */
  ghost predicate Lru(next: seq<int>, prev: seq<int>, order: seq<int>) {
    && |next| == |prev| == NBUF + 1 && InRange(order, NBUF) && Distinct(order)
    && next[HEAD] == (if order == [] then HEAD else order[0])
    && prev[HEAD] == (if order == [] then HEAD else order[|order| - 1])
    && (forall i {:trigger next[order[i]]} :: 0 <= i < |order| ==> next[order[i]] == After(order, i, HEAD))
    && (forall i {:trigger prev[order[i]]} :: 0 <= i < |order| ==> prev[order[i]] == Before(order, i, HEAD))
  }

  lemma LruAt(next: seq<int>, prev: seq<int>, order: seq<int>, i: int)
    requires Lru(next, prev, order) && 0 <= i < |order|
    ensures 0 <= order[i] < NBUF && next[order[i]] == After(order, i, HEAD) && prev[order[i]] == Before(order, i, HEAD)
    ensures 0 <= next[order[i]] <= NBUF && 0 <= prev[order[i]] <= NBUF
  {
  }

  /** What the two loops of bget decide, told from the buffers. */
  lemma BgetFacts(c: Cache, dev: int, sector: int)
    requires Shape(c)
    ensures var (h, v) := (Hit(c.bufs, c.order, dev, sector), Victim(c.bufs, c.order));
      && (h == NOBUF <==> !Cached(c.bufs, dev, sector)) && (v == NOBUF <==> AllBusy(c.bufs))
      && (h != NOBUF ==> 0 <= h < NBUF) && (v != NOBUF ==> 0 <= v < NBUF)
    ensures Inv(c) ==>
      var (r, b) := Got(c, dev, sector);
      && (b == NOBUF && !(!Cached(c.bufs, dev, sector) && AllBusy(c.bufs)) <==>
           exists a {:trigger c.bufs[a]} :: 0 <= a < NBUF && c.bufs[a].busy && Caches(c.bufs[a], dev, sector))
      && (b == NOBUF ==> r == c)
      && (b != NOBUF ==> if Cached(c.bufs, dev, sector) then Taken(c, r, b) && Caches(c.bufs[b], dev, sector)
            else Recycled(c, r, b, dev, sector))
  {
    VictimNone(c);
    if Hit(c.bufs, c.order, dev, sector) == NOBUF {
      MissNone(c, dev, sector);
    }
    if Inv(c) {
      hide Got, Hit, Victim, Inv, Taken, Recycled, AllBusy;
      GotExactly(c, dev, sector);
    }
  }

  /** The first loop of bget, one buffer on. */
  lemma HitStep(bufs: seq<Buf>, order: seq<int>, i: int, dev: int, sector: int)
    requires 0 <= i <= |order| && InRange(order, |bufs|)
    ensures Hit(bufs, order[i..], dev, sector) ==
      if i == |order| then NOBUF
      else if Caches(bufs[order[i]], dev, sector) then order[i]
      else Hit(bufs, order[i + 1..], dev, sector)
  {
    if i < |order| {
      assert order[i..][1..] == order[i + 1..];
    }
  }

  lemma LruPushAt(next: seq<int>, prev: seq<int>, order: seq<int>, b: int, i: int)
    requires Lru(next, prev, order) && 0 <= b < NBUF && b !in order && 0 <= i <= |order|
    ensures 0 <= next[HEAD] <= NBUF
    ensures var first, longer := next[HEAD], [b] + order;
      && next[b := first][HEAD := b][longer[i]] == After(longer, i, HEAD)
      && prev[b := HEAD][first := b][longer[i]] == Before(longer, i, HEAD)
  {
    if 0 < i {
      LruAt(next, prev, order, i - 1);
      assert order[i - 1] in order;
      assert 1 < i ==> order[i - 1] != order[0];
    }
  }

  /** b joins the list behind the head. */
  lemma LruPush(next: seq<int>, prev: seq<int>, order: seq<int>, b: int)
    requires Lru(next, prev, order) && 0 <= b < NBUF && b !in order
    ensures 0 <= next[HEAD] <= NBUF
    ensures var first := next[HEAD];
      Lru(next[b := first][HEAD := b], prev[b := HEAD][first := b], [b] + order)
  {
    hide After, Before;
    var longer := [b] + order;
    assert Distinct(longer) && InRange(longer, NBUF);
    forall i | 0 <= i < |longer|
      ensures next[b := next[HEAD]][HEAD := b][longer[i]] == After(longer, i, HEAD)
      ensures prev[b := HEAD][next[HEAD] := b][longer[i]] == Before(longer, i, HEAD)
    {
      LruPushAt(next, prev, order, b, i);
    }
  }

  lemma LruUnlinkAt(next: seq<int>, prev: seq<int>, order: seq<int>, k: int, i: int)
    requires Lru(next, prev, order) && 0 <= k < |order| && 0 <= i < |order| && i != k
    ensures 0 <= next[order[k]] <= NBUF && 0 <= prev[order[k]] <= NBUF
    ensures var b := order[k];
      var n, p, rest := next[prev[b] := next[b]], prev[next[b] := prev[b]], Without(order, k);
      var j := if i < k then i else i - 1;
      rest[j] == order[i] && n[order[i]] == After(rest, j, HEAD) && p[order[i]] == Before(rest, j, HEAD)
  {
    LruAt(next, prev, order, k);
    LruAt(next, prev, order, i);
    assert order[i] != order[k];
    assert 0 < k && i != k - 1 ==> order[i] != order[k - 1];
    assert k + 1 < |order| && i != k + 1 ==> order[i] != order[k + 1];
  }

  lemma LruUnlink(next: seq<int>, prev: seq<int>, order: seq<int>, k: int)
    requires Lru(next, prev, order) && 0 <= k < |order|
    ensures |next| == |prev| == NBUF + 1 && 0 <= order[k] < NBUF
    ensures 0 <= next[order[k]] <= NBUF && 0 <= prev[order[k]] <= NBUF
    ensures next[order[k]] != order[k] && prev[order[k]] != order[k]
    ensures var b := order[k];
      Lru(next[prev[b] := next[b]], prev[next[b] := prev[b]], Without(order, k))
  {
    LruAt(next, prev, order, k);
    WithoutAt(order, k);
    LruEnds(next, prev, order, k);
    var b, rest := order[k], Without(order, k);
    var n, p := next[prev[b] := next[b]], prev[next[b] := prev[b]];
    hide Lru, After, Before, Distinct;
    forall j | 0 <= j < |rest|
      ensures n[rest[j]] == After(rest, j, HEAD) && p[rest[j]] == Before(rest, j, HEAD)
    {
      LruUnlinkAt(next, prev, order, k, if j < k then j else j + 1);
    }
    LruIntro(n, p, rest);
  }

  lemma LruEnds(next: seq<int>, prev: seq<int>, order: seq<int>, k: int)
    requires Lru(next, prev, order) && 0 <= k < |order| && 0 <= next[order[k]] <= NBUF && 0 <= prev[order[k]] <= NBUF
    ensures var b, rest := order[k], Without(order, k);
      var n, p := next[prev[b] := next[b]], prev[next[b] := prev[b]];
      && n[HEAD] == (if rest == [] then HEAD else rest[0])
      && p[HEAD] == (if rest == [] then HEAD else rest[|rest| - 1])
  {
    LruAt(next, prev, order, k);
  }

  lemma LruIntro(next: seq<int>, prev: seq<int>, order: seq<int>)
    requires |next| == |prev| == NBUF + 1 && InRange(order, NBUF) && Distinct(order)
    requires next[HEAD] == (if order == [] then HEAD else order[0])
      && prev[HEAD] == (if order == [] then HEAD else order[|order| - 1])
    requires forall i {:trigger order[i]} :: 0 <= i < |order| ==>
      next[order[i]] == After(order, i, HEAD) && prev[order[i]] == Before(order, i, HEAD)
    ensures Lru(next, prev, order)
  {
  }

  // ---------------------------------------------------------------- the disk queue

  /** From head, along qnext, the queue holds exactly queue. */
  ghost predicate Chained(qnext: seq<int>, head: int, queue: seq<int>) {
    && |qnext| == NBUF && InRange(queue, NBUF) && Distinct(queue)
    && head == (if queue == [] then NIL else queue[0])
    && (forall i {:trigger qnext[queue[i]]} :: 0 <= i < |queue| ==> qnext[queue[i]] == After(queue, i, NIL))
  }

  lemma ChainedAt(qnext: seq<int>, head: int, queue: seq<int>, i: int)
    requires Chained(qnext, head, queue) && 0 <= i < |queue|
    ensures 0 <= queue[i] < NBUF && qnext[queue[i]] == After(queue, i, NIL) && head == queue[0]
  {
  }

  lemma ChainedAppend(qnext: seq<int>, head: int, queue: seq<int>, b: int)
    requires Chained(qnext, head, queue) && 0 <= b < NBUF && b !in queue
    ensures queue == [] ==> Chained(qnext[b := NIL], b, [b])
    ensures queue != [] ==>
      0 <= queue[|queue| - 1] < NBUF && Chained(qnext[b := NIL][queue[|queue| - 1] := b], head, queue + [b])
  {
    if queue != [] {
      var last, longer := queue[|queue| - 1], queue + [b];
      var q := qnext[b := NIL][last := b];
      assert Distinct(longer) && InRange(longer, NBUF);
      forall i | 0 <= i < |longer|
        ensures q[longer[i]] == After(longer, i, NIL)
      {
        if i < |queue| {
          ChainedAt(qnext, head, queue, i);
          assert i + 1 < |queue| ==> queue[i] != last;
        }
      }
    }
  }

  lemma ChainedTail(qnext: seq<int>, head: int, queue: seq<int>)
    requires Chained(qnext, head, queue) && queue != []
    ensures 0 <= head < NBUF && Chained(qnext, qnext[head], queue[1..])
  {
    var rest := queue[1..];
    ChainedAt(qnext, head, queue, 0);
    forall i | 0 <= i < |rest|
      ensures qnext[rest[i]] == After(rest, i, NIL)
    {
      ChainedAt(qnext, head, queue, i + 1);
    }
  }

  class BufferCache {
    var bufs: seq<Buf>
    var next: seq<int>
    var prev: seq<int>
    var qnext: seq<int>
    var ideQueue: int
    var disk: map<(int, int), Block>
    ghost var order: seq<int>
    ghost var queue: seq<int>
    ghost var clean: seq<bool>
    ghost var stamp: seq<int>
    ghost var clock: int

    ghost predicate Valid()
      reads this
    {
      Lru(next, prev, order) && |bufs| == NBUF && Chained(qnext, ideQueue, queue)
    }

    ghost function Abs(): (c: Cache)
      reads this
    {
      Cache(bufs, order, queue, disk, clean, stamp, clock)
    }

    /** binit. */
    constructor (disk: map<(int, int), Block>)
      ensures Valid() && Abs() == Start(disk)
    {
      bufs := seq(NBUF, i => Buf(false, false, false, 0, 0, Zeros()));
      this.disk := disk;
      qnext, ideQueue, queue := seq(NBUF, i => NIL), NIL, [];
      clean, stamp, clock := seq(NBUF, i => true), seq(NBUF, i => i), NBUF;
      var n, p: seq<int> := seq(NBUF + 1, i => HEAD), seq(NBUF + 1, i => HEAD);
      ghost var o: seq<int> := [];
      for b := 0 to NBUF
        invariant Lru(n, p, o) && |o| == b && forall i {:trigger o[i]} :: 0 <= i < b ==> o[i] == b - 1 - i
      {
        LruPush(n, p, o, b);
        var first := n[HEAD];
        n, p := n[b := first], p[b := HEAD];
        p := p[first := b];
        n := n[HEAD := b];
        o := [b] + o;
      }
      next, prev, order := n, p, o;
      new;
      assert order == Start(disk).order;
    }

    /**
     bget: -1 when the buffer is busy and the caller has to sleep, or when every buffer is busy and the kernel
     panics.
     */
    method Bget(dev: int, sector: int) returns (b: int, panicked: bool)
      requires Valid() && Shape(Abs())
      modifies this`bufs
      ensures Valid() && (Abs(), b) == Got(old(Abs()), dev, sector)
      ensures panicked <==> !Cached(old(bufs), dev, sector) && AllBusy(old(bufs))
      ensures Inv(old(Abs())) ==>
        var c := old(Abs());
        && (b == NOBUF && !panicked <==>
             exists a {:trigger c.bufs[a]} :: 0 <= a < NBUF && c.bufs[a].busy && Caches(c.bufs[a], dev, sector))
        && (b == NOBUF ==> Abs() == c)
        && (b != NOBUF ==> if Cached(c.bufs, dev, sector) then Taken(c, Abs(), b) && Caches(c.bufs[b], dev, sector)
              else Recycled(c, Abs(), b, dev, sector))
    {
      ghost var c := Abs();
      BgetFacts(c, dev, sector);
      hide Lru, Chained, After, Before, Hit, Victim, Cached, AllBusy, Taken, Recycled, Inv, Shape;
      panicked := false;
      b := FindHit(dev, sector);
      if b != HEAD {
        if bufs[b].busy {
          return NOBUF, false;
        }
        bufs := bufs[b := bufs[b].(busy := true)];
        return;
      }
      b := FindVictim();
      if b == HEAD {
        return NOBUF, true;
      }
      bufs := bufs[b := Buf(true, false, false, dev, sector, bufs[b].data)];
    }

    /** The first loop of bget, from the most recently used buffer on. */
    method FindHit(dev: int, sector: int) returns (b: int)
      requires Valid() && Shape(Abs())
      ensures var h := Hit(bufs, order, dev, sector); b == if h == NOBUF then HEAD else h
    {
      hide Listed, Distinct, Hit;
      ghost var i := 0;
      b := next[HEAD];
      assert order[0..] == order;
      while b != HEAD
        invariant 0 <= i <= |order| && b == (if i < |order| then order[i] else HEAD)
        invariant Hit(bufs, order, dev, sector) == Hit(bufs, order[i..], dev, sector)
        decreases |order| - i
      {
        LruAt(next, prev, order, i);
        HitStep(bufs, order, i, dev, sector);
        if (bufs[b].busy || bufs[b].valid) && bufs[b].dev == dev && bufs[b].sector == sector {
          return;
        }
        b, i := next[b], i + 1;
      }
      HitStep(bufs, order, i, dev, sector);
    }

    /** The second loop of bget, from the least recently used buffer on. */
    method FindVictim() returns (b: int)
      requires Valid() && Shape(Abs())
      ensures var v := Victim(bufs, order); b == if v == NOBUF then HEAD else v
    {
      hide Listed;
      ghost var i := |order|;
      b := prev[HEAD];
      assert order[..i] == order;
      while b != HEAD
        invariant 0 <= i <= |order| && b == (if 0 < i then order[i - 1] else HEAD)
        invariant Victim(bufs, order) == Victim(bufs, order[..i])
        decreases i
      {
        LruAt(next, prev, order, i - 1);
        if !bufs[b].busy {
          return;
        }
        assert order[..i][..i - 1] == order[..i - 1];
        b, i := prev[b], i - 1;
      }
    }

    /** The pointer updates of brelse. */
    method Relink(b: int, ghost k: int)
      requires Valid() && 0 <= k < |order| && order[k] == b
      modifies this`next, this`prev, this`order
      ensures Valid() && order == ToFront(old(order), k)
    {
      hide Lru, Chained, After, Before;
      LruUnlink(next, prev, order, k);
      var n, p := next, prev;
      p := p[n[b] := p[b]];
      n := n[p[b] := n[b]];
      UnlinkOrder(next, prev, order, k, n, p);
      LruPush(n, p, Without(order, k), b);
      var first := n[HEAD];
      n := n[b := first];
      p := p[b := HEAD];
      p := p[first := b];
      n := n[HEAD := b];
      assert [b] + Without(order, k) == ToFront(order, k);
      next, prev, order := n, p, [b] + Without(order, k);
    }

    /** brelse: the buffer moves to the front of the list. */
    method Brelse(b: int)
      requires Valid() && Inv(Abs()) && Enabled(Abs(), Release(b))
      modifies this`bufs, this`next, this`prev, this`order, this`stamp, this`clock
      ensures Valid() && Abs() == Step(old(Abs()), Release(b))
    {
      hide Lru, Chained, NoTwins, QueueOk, Coherent, ByRelease, After, Before;
      AllListed(order, b);
      ghost var k := Position(order, b);
      Relink(b, k);
      stamp, clock := stamp[b := clock], clock + 1;
      bufs := bufs[b := bufs[b].(busy := false)];
    }

    /** The first half of ide_rw: the buffer is appended to the disk queue. */
    method Enqueue(b: int)
      requires Valid() && 0 <= b < NBUF && b !in queue
      modifies this`qnext, this`ideQueue, this`queue
      ensures Valid() && queue == old(queue) + [b]
    {
      hide Lru;
      ChainedAppend(qnext, ideQueue, queue, b);
      ghost var q0 := qnext;
      qnext := qnext[b := NIL];
      if ideQueue == NIL {
        ideQueue := b;
      } else {
        var p := ideQueue;
        ghost var i := 0;
        ChainedAt(q0, ideQueue, queue, 0);
        while qnext[p] != NIL
          invariant queue == old(queue) && ideQueue == old(ideQueue) && qnext == q0[b := NIL]
          invariant 0 <= i < |queue| && p == queue[i] && 0 <= p < NBUF
          decreases |queue| - i
        {
          ChainedAt(q0, ideQueue, queue, i);
          ChainedAt(q0, ideQueue, queue, i + 1);
          p, i := qnext[p], i + 1;
        }
        ChainedAt(q0, ideQueue, queue, i);
        qnext := qnext[p := b];
      }
      queue := queue + [b];
    }

    /** bread on a buffer that is not valid. */
    method BreadStart(b: int)
      requires Valid() && Inv(Abs()) && Enabled(Abs(), StartRead(b))
      modifies this`qnext, this`ideQueue, this`queue
      ensures Valid() && Abs() == Step(old(Abs()), StartRead(b))
    {
      Enqueue(b);
    }

    /** bwrite, up to its sleep for the disk. */
    method BwriteStart(b: int)
      requires Valid() && Inv(Abs()) && Enabled(Abs(), StartWrite(b))
      modifies this`bufs, this`qnext, this`ideQueue, this`queue
      ensures Valid() && Abs() == Step(old(Abs()), StartWrite(b))
    {
      hide Lru, Chained, NoTwins, Coherent, ByRelease;
      bufs := bufs[b := bufs[b].(dirty := true)];
      Enqueue(b);
    }

    /** The holder of a buffer changes its data. */
    method Change(b: int, d: Block)
      requires Valid() && Inv(Abs()) && Enabled(Abs(), Modify(b, d))
      modifies this`bufs, this`clean
      ensures Valid() && Abs() == Step(old(Abs()), Modify(b, d))
    {
      bufs := bufs[b := bufs[b].(data := d)];
      clean := clean[b := false];
    }

    /** ide_intr: the request at the head of the queue is complete. */
    method IdeIntr()
      requires Valid() && Inv(Abs())
      modifies this`bufs, this`ideQueue, this`queue, this`disk, this`clean
      ensures Valid() && Abs() == Step(old(Abs()), Interrupt)
    {
      hide Lru, NoTwins, Coherent, ByRelease;
      var b := ideQueue;
      if b == NIL {
        return;
      }
      ChainedTail(qnext, ideQueue, queue);
      var x := bufs[b];
      if !x.dirty {
        x := x.(data := DiskAt(disk, x.dev, x.sector));
      } else {
        disk := disk[(x.dev, x.sector) := x.data];
      }
      x := x.(valid := true);
      x := x.(dirty := false);
      bufs := bufs[b := x];
      clean := clean[b := true];
      ideQueue := qnext[b];
      queue := queue[1..];
    }
  }

  /** The two assignments that unlink a buffer do not disturb each other. */
  lemma UnlinkOrder(next: seq<int>, prev: seq<int>, order: seq<int>, k: int, n: seq<int>, p: seq<int>)
    requires Lru(next, prev, order) && 0 <= k < |order|
    requires 0 <= order[k] < |prev| == |next| == NBUF + 1 && 0 <= next[order[k]] <= NBUF && 0 <= prev[order[k]] <= NBUF
    requires p == prev[next[order[k]] := prev[order[k]]] && p[order[k]] == prev[order[k]]
    requires n == next[p[order[k]] := next[order[k]]]
    ensures Lru(n, p, Without(order, k)) && order[k] !in Without(order, k)
  {
    LruUnlink(next, prev, order, k);
    WithoutAt(order, k);
  }
}
