/** The physical memory allocator on values (kalloc.c): a sorted, coalesced list of free runs. */
module KallocSpec {
  import opened Options

  datatype Run = Run(addr: int, len: int)

  /** The runs from i to j give way to mid. */
  ghost function Spliced(rs: seq<Run>, i: int, j: int, mid: seq<Run>): (out: seq<Run>)
    requires 0 <= i <= j <= |rs|
  {
    rs[..i] + mid + rs[j..]
  }

  /** Runs in address order with a gap between any two: no two of them could be merged. */
  ghost predicate Canonical(rs: seq<Run>) {
    && (forall i {:trigger rs[i]} :: 0 <= i < |rs| ==> 0 < rs[i].len)
    && (forall i, j {:trigger rs[i], rs[j]} :: 0 <= i < j < |rs| ==> rs[i].addr + rs[i].len < rs[j].addr)
  }

  /** Byte x lies in one of the runs. */
  ghost predicate In(rs: seq<Run>, x: int) {
    exists i {:trigger rs[i]} :: 0 <= i < |rs| && rs[i].addr <= x < rs[i].addr + rs[i].len
  }

  ghost predicate Disjoint(rs: seq<Run>, p: int, len: int) {
    forall i {:trigger rs[i]} :: 0 <= i < |rs| ==> rs[i].addr + rs[i].len <= p || p + len <= rs[i].addr
  }

  // ---------------------------------------------------------------- a canonical list is determined by its bytes

  lemma CanonicalTail(rs: seq<Run>)
    requires Canonical(rs) && rs != []
    ensures Canonical(rs[1..]) && 0 < rs[0].len && (1 < |rs| ==> rs[0].addr + rs[0].len < rs[1].addr)
    ensures forall x :: In(rs, x) <==> rs[0].addr <= x < rs[0].addr + rs[0].len || In(rs[1..], x)
    ensures forall x :: In(rs[1..], x) ==> rs[0].addr + rs[0].len < x
  {
    var t := rs[1..];
    assert forall i {:trigger t[i]} :: 0 <= i < |t| ==> t[i] == rs[i + 1];
    forall x
      ensures In(rs, x) <==> rs[0].addr <= x < rs[0].addr + rs[0].len || In(t, x)
      ensures In(t, x) ==> rs[0].addr + rs[0].len < x
    {
      if In(rs, x) {
        var i :| 0 <= i < |rs| && rs[i].addr <= x < rs[i].addr + rs[i].len;
        if 0 < i {
          assert t[i - 1] == rs[i];
        }
      }
      if In(t, x) {
        var i :| 0 <= i < |t| && t[i].addr <= x < t[i].addr + t[i].len;
        assert rs[i + 1] == t[i];
      }
    }
  }

  lemma CanonicalHead(a: seq<Run>, b: seq<Run>)
    requires Canonical(a) && Canonical(b) && a != [] && b != []
    requires forall x :: In(a, x) <==> In(b, x)
    ensures a[0] == b[0]
  {
    CanonicalTail(a);
    CanonicalTail(b);
    assert In(a, a[0].addr) && In(b, b[0].addr);
    assert In(a, a[0].addr + a[0].len - 1) && In(b, b[0].addr + b[0].len - 1);
    assert !In(a, a[0].addr + a[0].len) && !In(b, b[0].addr + b[0].len);
    assert a[0].addr == b[0].addr;
  }

  /** The list is a canonical form of the set of free bytes. */
  lemma {:induction false} CanonicalUnique(a: seq<Run>, b: seq<Run>)
    requires Canonical(a) && Canonical(b)
    requires forall x :: In(a, x) <==> In(b, x)
    ensures a == b
    decreases |a|
  {
    assert a != [] ==> In(a, a[0].addr);
    assert b != [] ==> In(b, b[0].addr);
    if a != [] && b != [] {
      CanonicalHead(a, b);
      CanonicalTail(a);
      CanonicalTail(b);
      CanonicalUnique(a[1..], b[1..]);
    }
  }

  // ---------------------------------------------------------------- kfree

  /** kfree of len bytes at p: the list after it, or None for the panic on a page already free. */
  function Inserted(rs: seq<Run>, p: int, len: int): (r: Option<seq<Run>>)
    decreases |rs|
  {
    if rs == [] || p + len < rs[0].addr then Some([Run(p, len)] + rs)
    else
      var r := rs[0];
      if r.addr <= p < r.addr + r.len then None
      else if p + len == r.addr then Some([Run(p, len + r.len)] + rs[1..])
      else if r.addr + r.len == p then
        if 1 < |rs| && rs[1].addr == p + len then Some([Run(r.addr, r.len + len + rs[1].len)] + rs[2..])
        else Some([Run(r.addr, r.len + len)] + rs[1..])
      else
        var rest := Inserted(rs[1..], p, len);
        if rest.None? then None else Some([r] + rest.value)
  }

  lemma ConsCanonical(r: Run, rs: seq<Run>)
    requires 0 < r.len && Canonical(rs) && (rs != [] ==> r.addr + r.len < rs[0].addr)
    ensures Canonical([r] + rs)
    ensures forall x :: In([r] + rs, x) <==> r.addr <= x < r.addr + r.len || In(rs, x)
  {
    var l := [r] + rs;
    assert forall i {:trigger l[i]} :: 0 < i < |l| ==> l[i] == rs[i - 1];
    assert Canonical(l);
    CanonicalTail(l);
    assert l[1..] == rs;
  }

  ghost predicate InsertedOk(rs: seq<Run>, p: int, len: int, out: seq<Run>) {
    && Canonical(out)
    && (forall x {:trigger In(out, x)} :: In(out, x) <==> In(rs, x) || p <= x < p + len)
    && out != [] && out[0].addr == (if rs != [] && rs[0].addr < p then rs[0].addr else p)
  }

  lemma InsertedFront(rs: seq<Run>, p: int, len: int)
    requires Canonical(rs) && 0 < len && (rs == [] || p + len < rs[0].addr)
    ensures InsertedOk(rs, p, len, [Run(p, len)] + rs)
  {
    ConsCanonical(Run(p, len), rs);
  }

  lemma MergeAbove(rs: seq<Run>, p: int, len: int)
    requires Canonical(rs) && 0 < len && rs != [] && p + len == rs[0].addr
    ensures InsertedOk(rs, p, len, [Run(p, len + rs[0].len)] + rs[1..])
  {
    hide Canonical, In;
    CanonicalTail(rs);
    ConsCanonical(Run(p, len + rs[0].len), rs[1..]);
  }

  lemma MergeBelow(rs: seq<Run>, p: int, len: int)
    requires Canonical(rs) && 0 < len && rs != [] && rs[0].addr + rs[0].len == p && (1 < |rs| ==> p + len < rs[1].addr)
    ensures InsertedOk(rs, p, len, [Run(rs[0].addr, rs[0].len + len)] + rs[1..])
  {
    hide Canonical, In;
    CanonicalTail(rs);
    ConsCanonical(Run(rs[0].addr, rs[0].len + len), rs[1..]);
  }

  lemma MergeBoth(rs: seq<Run>, p: int, len: int)
    requires Canonical(rs) && 0 < len && 1 < |rs| && rs[0].addr + rs[0].len == p && rs[1].addr == p + len
    ensures InsertedOk(rs, p, len, [Run(rs[0].addr, rs[0].len + len + rs[1].len)] + rs[2..])
  {
    hide Canonical, In;
    CanonicalTail(rs);
    CanonicalTail(rs[1..]);
    assert rs[2..] == rs[1..][1..];
    ConsCanonical(Run(rs[0].addr, rs[0].len + len + rs[1].len), rs[2..]);
  }

  lemma InsertedRest(rs: seq<Run>, p: int, len: int, out: seq<Run>)
    requires Canonical(rs) && 0 < len && rs != [] && rs[0].addr + rs[0].len < p
    requires InsertedOk(rs[1..], p, len, out)
    ensures InsertedOk(rs, p, len, [rs[0]] + out)
  {
    CanonicalTail(rs);
    hide Canonical, In;
    ConsCanonical(rs[0], out);
  }

  /** Freeing a range disjoint from the free bytes adds exactly that range and keeps the list canonical. */
  lemma {:induction false} InsertedKeeps(rs: seq<Run>, p: int, len: int)
    requires Canonical(rs) && 0 < len && Disjoint(rs, p, len)
    ensures Inserted(rs, p, len).Some? && InsertedOk(rs, p, len, Inserted(rs, p, len).value)
    decreases |rs|
  {
    hide In, InsertedOk;
    if rs == [] || p + len < rs[0].addr {
      InsertedFront(rs, p, len);
    } else {
      var r, t := rs[0], rs[1..];
      CanonicalTail(rs);
      if p + len == r.addr {
        MergeAbove(rs, p, len);
      } else if r.addr + r.len == p {
        if 1 < |rs| && rs[1].addr == p + len {
          MergeBoth(rs, p, len);
        } else {
          assert 1 < |rs| ==> rs[1].addr + rs[1].len <= p || p + len <= rs[1].addr;
          assert 1 < |rs| ==> 0 < rs[1].len;
          MergeBelow(rs, p, len);
        }
      } else {
        assert Disjoint(t, p, len);
        InsertedKeeps(t, p, len);
        InsertedRest(rs, p, len, Inserted(t, p, len).value);
      }
    }
  }

  /** kfree panics exactly when its first byte is free. */
  lemma {:induction false} PanicsExactly(rs: seq<Run>, p: int, len: int)
    requires Canonical(rs) && 0 < len
    ensures Inserted(rs, p, len).None? <==> In(rs, p)
    decreases |rs|
  {
    hide In;
    if rs == [] {
      assert !In(rs, p) by { NotInEmpty(p); }
    } else {
      CanonicalTail(rs);
      if p + len < rs[0].addr {
      } else if p + len != rs[0].addr && rs[0].addr + rs[0].len != p && !(rs[0].addr <= p < rs[0].addr + rs[0].len) {
        PanicsExactly(rs[1..], p, len);
      }
    }
  }

  lemma NotInEmpty(x: int)
    ensures !In([], x)
  {
  }

  lemma {:induction false} InsertedCovers(rs: seq<Run>, p: int, len: int)
    requires 0 < len && (forall i {:trigger rs[i]} :: 0 <= i < |rs| ==> 0 < rs[i].len) && Inserted(rs, p, len).Some?
    ensures In(Inserted(rs, p, len).value, p)
    decreases |rs|
  {
    var out := Inserted(rs, p, len).value;
    if rs == [] || p + len < rs[0].addr || p + len == rs[0].addr || rs[0].addr + rs[0].len == p {
      assert out[0].addr <= p < out[0].addr + out[0].len;
    } else {
      InsertedCovers(rs[1..], p, len);
      var t := Inserted(rs[1..], p, len).value;
      var i :| 0 <= i < |t| && t[i].addr <= p < t[i].addr + t[i].len;
      assert out[i + 1] == t[i];
    }
  }

  lemma NotDisjointTail(rs: seq<Run>, p: int, len: int)
    requires Canonical(rs) && rs != [] && !Disjoint(rs, p, len) && rs[0].addr + rs[0].len <= p
    ensures !Disjoint(rs[1..], p, len)
  {
    var i :| 0 <= i < |rs| && !(rs[i].addr + rs[i].len <= p || p + len <= rs[i].addr);
    assert rs[1..][i - 1] == rs[i];
  }

  /** An overlap that kfree does not notice always ruins the list. */
  lemma {:induction false} OverlapRuins(rs: seq<Run>, p: int, len: int)
    requires Canonical(rs) && 0 < len && !Disjoint(rs, p, len) && Inserted(rs, p, len).Some?
    ensures !Canonical(Inserted(rs, p, len).value)
    decreases |rs|
  {
    var i :| 0 <= i < |rs| && !(rs[i].addr + rs[i].len <= p || p + len <= rs[i].addr);
    var r, out := rs[0], Inserted(rs, p, len).value;
    if r.addr + r.len == p {
      NotDisjointTail(rs, p, len);
      assert 0 < i;
      assert rs[1].addr <= rs[i].addr;
      assert out[1] == rs[1] && out[0].addr + out[0].len == p + len;
    } else if r.addr + r.len < p {
      NotDisjointTail(rs, p, len);
      CanonicalTail(rs);
      OverlapRuins(rs[1..], p, len);
      assert out[1..] == Inserted(rs[1..], p, len).value;
      if Canonical(out) {
        CanonicalTail(out);
      }
    } else {
      var t := rs[1..];
      assert forall k {:trigger t[k]} :: 0 <= k < |t| ==> t[k] == rs[k + 1];
      InsertedCovers(t, p, len);
      var u := Inserted(t, p, len).value;
      var k :| 0 <= k < |u| && u[k].addr <= p < u[k].addr + u[k].len;
      assert out[k + 1] == u[k] && out[0] == r;
    }
  }

  /** kfree keeps the list canonical exactly when the range it is given holds no free byte. */
  lemma KfreeSoundExactly(rs: seq<Run>, p: int, len: int)
    requires Canonical(rs) && 0 < len && Inserted(rs, p, len).Some?
    ensures Canonical(Inserted(rs, p, len).value) <==> Disjoint(rs, p, len)
  {
    if Disjoint(rs, p, len) {
      InsertedKeeps(rs, p, len);
    } else {
      OverlapRuins(rs, p, len);
    }
  }

  /** Two pages freed of which the second is free already: kfree does not notice, and the list is ruined. */
  lemma OverlapUnnoticed()
    ensures var rs := [Run(8192, 4096)];
      && Canonical(rs) && !Disjoint(rs, 4096, 8192)
      && Inserted(rs, 4096, 8192).Some? && !Canonical(Inserted(rs, 4096, 8192).value)
  {
    var rs := [Run(8192, 4096)];
    assert rs[0] == Run(8192, 4096);
    PanicsExactly(rs, 4096, 8192);
    KfreeSoundExactly(rs, 4096, 8192);
  }

  // ---------------------------------------------------------------- kalloc

  /** kalloc of n bytes: the address and the list after it, from the end of the first run that is long enough. */
  function Taken(rs: seq<Run>, n: int): (r: Option<(int, seq<Run>)>)
    decreases |rs|
  {
    if rs == [] then None
    else if rs[0].len == n then Some((rs[0].addr, rs[1..]))
    else if n < rs[0].len then Some((rs[0].addr + rs[0].len - n, [Run(rs[0].addr, rs[0].len - n)] + rs[1..]))
    else
      var rest := Taken(rs[1..], n);
      if rest.None? then None else Some((rest.value.0, [rs[0]] + rest.value.1))
  }

  /** The bytes from a to a + n are all free. */
  ghost predicate Room(rs: seq<Run>, a: int, n: int) {
    forall x {:trigger In(rs, x)} :: a <= x < a + n ==> In(rs, x)
  }

  ghost predicate TakenOk(rs: seq<Run>, n: int, a: int, out: seq<Run>) {
    && Canonical(out)
    && (forall x {:trigger In(out, x)} {:trigger In(rs, x)} :: In(rs, x) <==> In(out, x) || a <= x < a + n)
    && Disjoint(out, a, n)
    && (out != [] ==> rs != [] && rs[0].addr <= out[0].addr)
  }

  lemma TakenWhole(rs: seq<Run>)
    requires Canonical(rs) && rs != []
    ensures TakenOk(rs, rs[0].len, rs[0].addr, rs[1..])
  {
    CanonicalTail(rs);
  }

  lemma TakenPart(rs: seq<Run>, n: int)
    requires Canonical(rs) && rs != [] && 0 < n < rs[0].len
    ensures TakenOk(rs, n, rs[0].addr + rs[0].len - n, [Run(rs[0].addr, rs[0].len - n)] + rs[1..])
  {
    CanonicalTail(rs);
    ConsCanonical(Run(rs[0].addr, rs[0].len - n), rs[1..]);
    var l := [Run(rs[0].addr, rs[0].len - n)] + rs[1..];
    assert forall i {:trigger l[i]} :: 0 < i < |l| ==> l[i] == rs[i];
  }

  lemma TakenRest(rs: seq<Run>, n: int, a: int, out: seq<Run>)
    requires Canonical(rs) && rs != [] && 0 < n && TakenOk(rs[1..], n, a, out)
    ensures TakenOk(rs, n, a, [rs[0]] + out)
  {
    CanonicalTail(rs);
    ConsCanonical(rs[0], out);
    assert In(rs[1..], a);
    var l := [rs[0]] + out;
    assert forall i {:trigger l[i]} :: 0 < i < |l| ==> l[i] == out[i - 1];
  }

  lemma {:induction false} TakenKeeps(rs: seq<Run>, n: int)
    requires Canonical(rs) && 0 < n
    ensures Taken(rs, n).Some? ==> TakenOk(rs, n, Taken(rs, n).value.0, Taken(rs, n).value.1)
    decreases |rs|
  {
    hide In, TakenOk;
    if rs == [] {
    } else if rs[0].len == n {
      TakenWhole(rs);
    } else if n < rs[0].len {
      TakenPart(rs, n);
    } else {
      CanonicalTail(rs);
      TakenKeeps(rs[1..], n);
      if Taken(rs, n).Some? {
        TakenRest(rs, n, Taken(rs[1..], n).value.0, Taken(rs[1..], n).value.1);
      }
    }
  }

  /** A stretch of free bytes cannot cross the gap after the first run. */
  lemma RoomInTail(rs: seq<Run>, a: int, n: int)
    requires Canonical(rs) && rs != [] && 0 < n && rs[0].len < n && Room(rs, a, n)
    ensures Room(rs[1..], a, n)
  {
    CanonicalTail(rs);
    assert In(rs, a);
    assert !In(rs, rs[0].addr + rs[0].len);
    assert !(rs[0].addr <= a < rs[0].addr + rs[0].len);
    assert In(rs[1..], a);
  }

  lemma {:induction false} NoRoom(rs: seq<Run>, n: int, a: int)
    requires Canonical(rs) && 0 < n && Taken(rs, n).None?
    ensures !Room(rs, a, n)
    decreases |rs|
  {
    if rs == [] {
      assert !In(rs, a);
    } else {
      CanonicalTail(rs);
      NoRoom(rs[1..], n, a);
      if Room(rs, a, n) {
        RoomInTail(rs, a, n);
      }
    }
  }

  /** kalloc fails exactly when no n contiguous bytes are free. */
  lemma KallocFailsExactly(rs: seq<Run>, n: int)
    requires Canonical(rs) && 0 < n
    ensures Taken(rs, n).None? <==> !exists a {:trigger Room(rs, a, n)} :: Room(rs, a, n)
  {
    if Taken(rs, n).None? {
      forall a
        ensures !Room(rs, a, n)
      {
        NoRoom(rs, n, a);
      }
    } else {
      TakenKeeps(rs, n);
      assert Room(rs, Taken(rs, n).value.0, n);
    }
  }

  /** The end of the first run is not free, and lower addresses with room for n bytes lie in that run. */
  lemma FirstFitHead(rs: seq<Run>, n: int, b: int)
    requires Canonical(rs) && rs != [] && 0 < n <= rs[0].len && Room(rs, b, n)
    ensures var a := rs[0].addr + rs[0].len - n; !In(rs, a + n) && (b < a ==> Room(rs, b, a + n - b))
  {
    CanonicalTail(rs);
    assert In(rs, b);
  }

  /**
   kalloc's address told from the free bytes: what follows the block is not free, and from any lower address with room
   for n bytes all bytes up to the end of the block are free. So it is the end of the lowest stretch that has room.
   */
  lemma {:induction false} FirstFit(rs: seq<Run>, n: int, b: int)
    requires Canonical(rs) && 0 < n && Taken(rs, n).Some? && Room(rs, b, n)
    ensures var a := Taken(rs, n).value.0; !In(rs, a + n) && (b < a ==> Room(rs, b, a + n - b))
    decreases |rs|
  {
    if n <= rs[0].len {
      FirstFitHead(rs, n, b);
    } else {
      CanonicalTail(rs);
      RoomInTail(rs, b, n);
      FirstFit(rs[1..], n, b);
      assert In(rs[1..], b);
      TakenKeeps(rs[1..], n);
      assert In(rs[1..], Taken(rs[1..], n).value.0);
    }
  }

  /** kfree of what kalloc has just returned restores the very same list. */
  lemma KfreeUndoesKalloc(rs: seq<Run>, n: int)
    requires Canonical(rs) && 0 < n && Taken(rs, n).Some?
    ensures Inserted(Taken(rs, n).value.1, Taken(rs, n).value.0, n) == Some(rs)
  {
    TakenKeeps(rs, n);
    var (a, out) := Taken(rs, n).value;
    InsertedKeeps(out, a, n);
    CanonicalUnique(Inserted(out, a, n).value, rs);
  }

  // ---------------------------------------------------------------- runs of kalloc and kfree

  /** The free list, and for every block handed out and not yet freed its length. */
  datatype Heap = Heap(free: seq<Run>, live: map<int, int>)

  ghost predicate InLive(live: map<int, int>, x: int) {
    exists a {:trigger live[a]} :: a in live && a <= x < a + live[a]
  }

  /** The bytes of owned are partitioned into the free runs and the live blocks. */
  ghost predicate Partitioned(h: Heap, owned: iset<int>) {
    && Canonical(h.free)
    && (forall a {:trigger h.live[a]} :: a in h.live ==> 0 < h.live[a])
    && (forall a, b {:trigger h.live[a], h.live[b]} :: a in h.live && b in h.live && a < b ==> a + h.live[a] <= b)
    && (forall a {:trigger h.live[a]} :: a in h.live ==> Disjoint(h.free, a, h.live[a]))
    && (forall x {:trigger In(h.free, x)} {:trigger InLive(h.live, x)} :: x in owned <==>
         In(h.free, x) || InLive(h.live, x))
  }

  datatype Op = Alloc(n: int) | Free(a: int)

  /** kalloc demands a positive length; a caller frees a block it was given, whole. */
  predicate Legal(h: Heap, op: Op) {
    match op
    case Alloc(n) => 0 < n
    case Free(a) => a in h.live
  }

  function Did(h: Heap, op: Op): (r: Heap)
    requires Legal(h, op)
  {
    match op
    case Alloc(n) =>
      var t := Taken(h.free, n);
      if t.None? then h else Heap(t.value.1, h.live[t.value.0 := n])
    case Free(a) =>
      var out := Inserted(h.free, a, h.live[a]);
      if out.None? then h else Heap(out.value, h.live - {a})
  }

  lemma NoShare(rs: seq<Run>, p: int, len: int, x: int)
    requires Disjoint(rs, p, len) && p <= x < p + len
    ensures !In(rs, x)
  {
  }

  lemma ApartDisjoint(rs: seq<Run>, p: int, len: int)
    requires Canonical(rs) && 0 < len && forall x {:trigger In(rs, x)} :: p <= x < p + len ==> !In(rs, x)
    ensures Disjoint(rs, p, len)
  {
    forall i | 0 <= i < |rs|
      ensures rs[i].addr + rs[i].len <= p || p + len <= rs[i].addr
    {
      InAt(rs, i, if p <= rs[i].addr then rs[i].addr else p);
    }
  }

  lemma InAt(rs: seq<Run>, i: int, x: int)
    requires Canonical(rs) && 0 <= i < |rs|
    ensures 0 < rs[i].len && (rs[i].addr <= x < rs[i].addr + rs[i].len ==> In(rs, x))
  {
  }

  lemma AllocApart(free: seq<Run>, n: int, a: int, out: seq<Run>, b: int, len: int, x: int)
    requires TakenOk(free, n, a, out) && Disjoint(free, b, len)
    ensures b <= x < b + len ==> !In(out, x) && !(a <= x < a + n)
  {
    hide Disjoint, Canonical;
    assert In(free, x) <==> In(out, x) || a <= x < a + n;
    hide In;
    if b <= x < b + len {
      NoShare(free, b, len, x);
    }
  }

  lemma AllocDisjoint(h: Heap, owned: iset<int>, n: int, a: int, out: seq<Run>, b: int)
    requires Partitioned(h, owned) && 0 < n && TakenOk(h.free, n, a, out) && b in h.live
    ensures (a + n <= b || b + h.live[b] <= a) && Disjoint(out, b, h.live[b])
  {
    assert 0 < h.live[b] && Disjoint(h.free, b, h.live[b]);
    hide Partitioned, Disjoint, In, Canonical;
    forall x
      ensures b <= x < b + h.live[b] ==> !In(out, x)
    {
      AllocApart(h.free, n, a, out, b, h.live[b], x);
    }
    ApartDisjoint(out, b, h.live[b]);
    AllocApart(h.free, n, a, out, b, h.live[b], if a <= b then b else a);
  }

  /** Handing out n free bytes at a keeps the partition, whichever free bytes they are. */
  lemma HandOutKeeps(h: Heap, owned: iset<int>, n: int, a: int, out: seq<Run>)
    requires Partitioned(h, owned) && 0 < n && TakenOk(h.free, n, a, out)
    ensures a !in h.live && Partitioned(Heap(out, h.live[a := n]), owned)
  {
    hide Canonical, In, Disjoint, InLive;
    var live := h.live[a := n];
    forall b | b in h.live
      ensures (a + n <= b || b + h.live[b] <= a) && Disjoint(out, b, h.live[b])
    {
      AllocDisjoint(h, owned, n, a, out, b);
    }
    assert a !in h.live;
    forall x
      ensures x in owned <==> In(out, x) || InLive(live, x)
    {
      LiveAdd(h.live, a, n, x);
      assert x in owned <==> In(h.free, x) || InLive(h.live, x);
    }
  }

  lemma AllocKeeps(h: Heap, owned: iset<int>, n: int)
    requires Partitioned(h, owned) && 0 < n
    ensures Partitioned(Did(h, Alloc(n)), owned)
    ensures Taken(h.free, n).Some? ==> Taken(h.free, n).value.0 !in h.live
  {
    if Taken(h.free, n).Some? {
      TakenKeeps(h.free, n);
      HandOutKeeps(h, owned, n, Taken(h.free, n).value.0, Taken(h.free, n).value.1);
    }
  }

  lemma LiveAdd(live: map<int, int>, a: int, n: int, x: int)
    requires a !in live
    ensures InLive(live[a := n], x) <==> InLive(live, x) || a <= x < a + n
  {
    var more := live[a := n];
    if InLive(live, x) {
      var b :| b in live && b <= x < b + live[b];
      assert b in more && more[b] == live[b];
    }
    if a <= x < a + n {
      assert a in more && more[a] == n;
    }
  }

  lemma FreedApart(h: Heap, owned: iset<int>, a: int, out: seq<Run>, b: int)
    requires Partitioned(h, owned) && a in h.live && b in h.live && b != a && Canonical(out)
    requires forall x {:trigger In(out, x)} :: In(out, x) <==> In(h.free, x) || a <= x < a + h.live[a]
    ensures Disjoint(out, b, h.live[b])
  {
    assert 0 < h.live[b] && Disjoint(h.free, b, h.live[b]);
    assert a < b ==> a + h.live[a] <= b;
    assert b < a ==> b + h.live[b] <= a;
    hide Partitioned, Disjoint, In, Canonical;
    forall x | b <= x < b + h.live[b]
      ensures !In(out, x)
    {
      NoShare(h.free, b, h.live[b], x);
    }
    ApartDisjoint(out, b, h.live[b]);
  }

  lemma FreeKeeps(h: Heap, owned: iset<int>, a: int)
    requires Partitioned(h, owned) && a in h.live
    ensures Inserted(h.free, a, h.live[a]).Some?
    ensures Partitioned(Did(h, Free(a)), owned)
  {
    var n := h.live[a];
    InsertedKeeps(h.free, a, n);
    var out, live := Inserted(h.free, a, n).value, h.live - {a};
    forall b | b in live
      ensures Disjoint(out, b, live[b])
    {
      FreedApart(h, owned, a, out, b);
    }
    forall x
      ensures InLive(h.live, x) <==> InLive(live, x) || a <= x < a + n
    {
      LiveAdd(live, a, n, x);
      assert live[a := n] == h.live;
    }
    forall x
      ensures x in owned <==> In(out, x) || InLive(live, x)
    {
      assert x in owned <==> In(h.free, x) || InLive(h.live, x);
    }
  }

  /** The heap after the operations; None when one of them is not legal. */
  function Final(h: Heap, ops: seq<Op>): (r: Option<Heap>)
    decreases |ops|
  {
    if ops == [] then Some(h) else if !Legal(h, ops[0]) then None else Final(Did(h, ops[0]), ops[1..])
  }

  /** Live blocks never overlap each other or the free list, and nothing is lost, in any run. */
  lemma {:induction false} PartitionKept(h: Heap, owned: iset<int>, ops: seq<Op>)
    requires Partitioned(h, owned) && Final(h, ops).Some?
    ensures Partitioned(Final(h, ops).value, owned)
    decreases |ops|
  {
    hide Partitioned;
    if ops != [] {
      match ops[0] {
        case Alloc(n) => AllocKeeps(h, owned, n);
        case Free(a) => FreeKeeps(h, owned, a);
      }
      PartitionKept(Did(h, ops[0]), owned, ops[1..]);
    }
  }

  /** Once every block has been freed, in whatever order, the list is the one run that kinit made. */
  lemma AllFreed(h: Heap, owned: iset<int>, lo: int, hi: int)
    requires Partitioned(h, owned) && h.live == map[] && lo < hi
    requires forall x {:trigger x in owned} :: x in owned <==> lo <= x < hi
    ensures h.free == [Run(lo, hi - lo)]
  {
    var one := [Run(lo, hi - lo)];
    forall x
      ensures In(h.free, x) <==> In(one, x)
    {
      assert one[0] == Run(lo, hi - lo);
      assert !InLive(h.live, x);
    }
    CanonicalUnique(h.free, one);
  }
}
