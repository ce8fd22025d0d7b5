/** The physical memory allocator with its linked list of runs (kalloc.c), proved against KallocSpec. */
module Kalloc {
  import opened Options
  import opened KallocSpec

  const PAGE: int := 4096

  /** The struct run at the start of every free run. */
  datatype Header = Header(next: int, len: int)

  function AddrAt(rs: seq<Run>, i: int): int
    requires 0 <= i <= |rs|
  {
    if i < |rs| then rs[i].addr else 0
  }

  /** From head, along next, the headers in memory are exactly the runs rs. */
  ghost predicate Linked(mem: map<int, Header>, head: int, rs: seq<Run>) {
    && head == AddrAt(rs, 0)
    && (forall i {:trigger rs[i]} :: 0 <= i < |rs| ==> 0 < rs[i].addr && rs[i].addr in mem)
    && (forall i {:trigger mem[rs[i].addr]} :: 0 <= i < |rs| ==>
         mem[rs[i].addr] == Header(AddrAt(rs, i + 1), rs[i].len))
  }

  lemma LinkedAt(mem: map<int, Header>, head: int, rs: seq<Run>, i: int)
    requires Linked(mem, head, rs) && 0 <= i < |rs|
    ensures 0 < rs[i].addr && rs[i].addr in mem && mem[rs[i].addr] == Header(AddrAt(rs, i + 1), rs[i].len)
  {
  }

  /** Storing x through rp, a pointer to the list head (0) or to the next field of a run. */
  function Stored(mem: map<int, Header>, rp: int, x: int): map<int, Header>
    requires rp == 0 || rp in mem
  {
    if rp == 0 then mem else mem[rp := mem[rp].(next := x)]
  }

  function HeadStored(head: int, rp: int, x: int): int {
    if rp == 0 then x else head
  }

  /** The pointer to the link that leads to run i. */
  function LinkTo(rs: seq<Run>, i: int): int
    requires 0 <= i <= |rs|
  {
    if i == 0 then 0 else rs[i - 1].addr
  }

  lemma DistinctAddrs(rs: seq<Run>, i: int, j: int)
    requires Canonical(rs) && 0 <= i < |rs| && 0 <= j < |rs| && i != j
    ensures rs[i].addr != rs[j].addr
  {
  }

  /** The runs from i to j give way to the run q. */
  lemma SpliceOne(mem: map<int, Header>, head: int, rs: seq<Run>, i: int, j: int, q: Run)
    requires Linked(mem, head, rs) && Canonical(rs) && 0 <= i <= j <= |rs| && 0 < q.addr
    requires forall k {:trigger rs[k]} :: 0 <= k < |rs| && !(i <= k < j) ==> rs[k].addr != q.addr
    ensures LinkTo(rs, i) == 0 || LinkTo(rs, i) in mem
    ensures var rp := LinkTo(rs, i);
      var filled := mem[q.addr := Header(AddrAt(rs, j), q.len)];
      (rp == 0 || rp in filled)
        && Linked(Stored(filled, rp, q.addr), HeadStored(head, rp, q.addr), Spliced(rs, i, j, [q]))
  {
    if 0 < i {
      LinkedAt(mem, head, rs, i - 1);
    }
    hide Linked, Stored, Canonical;
    HeadAt(mem, head, rs);
    var rp := LinkTo(rs, i);
    var filled := mem[q.addr := Header(AddrAt(rs, j), q.len)];
    var m, out := Stored(filled, rp, q.addr), Spliced(rs, i, j, [q]);
    forall k | 0 <= k < |out|
      ensures 0 < out[k].addr && out[k].addr in m && m[out[k].addr] == Header(AddrAt(out, k + 1), out[k].len)
    {
      SpliceOneAt(mem, head, rs, i, j, q, k);
    }
    LinkedIntro(m, HeadStored(head, rp, q.addr), out);
  }

  lemma LinkedIntro(mem: map<int, Header>, head: int, rs: seq<Run>)
    requires head == AddrAt(rs, 0)
    requires forall i {:trigger rs[i]} :: 0 <= i < |rs| ==>
      0 < rs[i].addr && rs[i].addr in mem && mem[rs[i].addr] == Header(AddrAt(rs, i + 1), rs[i].len)
    ensures Linked(mem, head, rs)
  {
  }

  lemma SpliceOneAt(mem: map<int, Header>, head: int, rs: seq<Run>, i: int, j: int, q: Run, k: int)
    requires Linked(mem, head, rs) && Canonical(rs) && 0 <= i <= j <= |rs| && 0 < q.addr
      && 0 <= k < |Spliced(rs, i, j, [q])|
    requires forall k {:trigger rs[k]} :: 0 <= k < |rs| && !(i <= k < j) ==> rs[k].addr != q.addr
    ensures LinkTo(rs, i) == 0 || LinkTo(rs, i) in mem
    ensures var m := Stored(mem[q.addr := Header(AddrAt(rs, j), q.len)], LinkTo(rs, i), q.addr);
      var out := Spliced(rs, i, j, [q]);
      0 < out[k].addr && out[k].addr in m && m[out[k].addr] == Header(AddrAt(out, k + 1), out[k].len)
  {
    hide Linked, Canonical, Spliced;
    SplicedAt(rs, i, j, q, k);
    if 0 < i {
      LinkedAt(mem, head, rs, i - 1);
    }
    if k != i {
      var o := if k < i then k else k - i - 1 + j;
      LinkedAt(mem, head, rs, o);
      if 0 < i && o != i - 1 {
        DistinctAddrs(rs, o, i - 1);
      }
    }
  }

  lemma SplicedAt(rs: seq<Run>, i: int, j: int, q: Run, k: int)
    requires 0 <= i <= j <= |rs| && 0 <= k < |Spliced(rs, i, j, [q])|
    ensures var out := Spliced(rs, i, j, [q]);
      var o := if k < i then k else k - i - 1 + j;
      && (k == i ==> out[k] == q && AddrAt(out, k + 1) == AddrAt(rs, j))
      && (k != i ==>
           0 <= o < |rs| && out[k] == rs[o]
           && AddrAt(out, k + 1) == (if o == i - 1 && k < i then q.addr else AddrAt(rs, o + 1)))
  {
  }

  /** Run i leaves the list. */
  lemma CutAt(rs: seq<Run>, i: int, k: int)
    requires 0 <= i < |rs| && 0 <= k < |Spliced(rs, i, i + 1, [])|
    ensures var out := Spliced(rs, i, i + 1, []);
      var o := if k < i then k else k + 1;
      |out| == |rs| - 1 && 0 <= o < |rs| && o != i && out[k] == rs[o]
        && AddrAt(out, k + 1) == AddrAt(rs, if o == i - 1 then i + 1 else o + 1)
  {
  }

  lemma SpliceOutAt(mem: map<int, Header>, head: int, rs: seq<Run>, i: int, k: int)
    requires Linked(mem, head, rs) && Canonical(rs) && 0 <= i < |rs| && 0 <= k < |Spliced(rs, i, i + 1, [])|
    ensures LinkTo(rs, i) == 0 || LinkTo(rs, i) in mem
    ensures var m := Stored(mem, LinkTo(rs, i), AddrAt(rs, i + 1));
      var out := Spliced(rs, i, i + 1, []);
      0 < out[k].addr && out[k].addr in m && m[out[k].addr] == Header(AddrAt(out, k + 1), out[k].len)
  {
    hide Linked, Canonical, Spliced;
    CutAt(rs, i, k);
    if 0 < i {
      LinkedAt(mem, head, rs, i - 1);
    }
    var o := if k < i then k else k + 1;
    LinkedAt(mem, head, rs, o);
    if 0 < i && o != i - 1 {
      DistinctAddrs(rs, o, i - 1);
    }
  }

  lemma SpliceOut(mem: map<int, Header>, head: int, rs: seq<Run>, i: int)
    requires Linked(mem, head, rs) && Canonical(rs) && 0 <= i < |rs|
    ensures LinkTo(rs, i) == 0 || LinkTo(rs, i) in mem
    ensures var rp := LinkTo(rs, i);
      Linked(Stored(mem, rp, AddrAt(rs, i + 1)), HeadStored(head, rp, AddrAt(rs, i + 1)), Spliced(rs, i, i + 1, []))
  {
    hide Linked, Stored, Canonical;
    if 0 < i {
      LinkedAt(mem, head, rs, i - 1);
    }
    HeadAt(mem, head, rs);
    var rp := LinkTo(rs, i);
    var m, out := Stored(mem, rp, AddrAt(rs, i + 1)), Spliced(rs, i, i + 1, []);
    forall k | 0 <= k < |out|
      ensures 0 < out[k].addr && out[k].addr in m && m[out[k].addr] == Header(AddrAt(out, k + 1), out[k].len)
    {
      SpliceOutAt(mem, head, rs, i, k);
    }
    LinkedIntro(m, HeadStored(head, rp, AddrAt(rs, i + 1)), out);
  }

  // ---------------------------------------------------------------- the loops, one run at a time

  ghost function Prepended(pre: seq<Run>, t: Option<seq<Run>>): Option<seq<Run>> {
    if t.None? then None else Some(pre + t.value)
  }

  lemma InsertedPast(rs: seq<Run>, i: int, p: int, len: int)
    requires 0 <= i < |rs| && Inserted(rs, p, len) == Prepended(rs[..i], Inserted(rs[i..], p, len))
    requires rs[i].addr <= p + len && !(rs[i].addr <= p < rs[i].addr + rs[i].len) && p + len != rs[i].addr
      && rs[i].addr + rs[i].len != p
    ensures Inserted(rs, p, len) == Prepended(rs[..i + 1], Inserted(rs[i + 1..], p, len))
  {
    assert rs[i..][1..] == rs[i + 1..];
    var t := Inserted(rs[i + 1..], p, len);
    if t.Some? {
      assert rs[..i] + ([rs[i]] + t.value) == rs[..i + 1] + t.value;
    }
  }

  /** Where the loop of kfree stops, and what the list becomes there. */
  lemma InsertedHere(rs: seq<Run>, i: int, p: int, len: int)
    requires 0 <= i <= |rs| && Inserted(rs, p, len) == Prepended(rs[..i], Inserted(rs[i..], p, len))
    ensures (i == |rs| || p + len < rs[i].addr) ==> Inserted(rs, p, len) == Some(Spliced(rs, i, i, [Run(p, len)]))
    ensures i < |rs| && rs[i].addr <= p + len && !(rs[i].addr <= p < rs[i].addr + rs[i].len) ==>
      && (p + len == rs[i].addr ==> Inserted(rs, p, len) == Some(Spliced(rs, i, i + 1, [Run(p, len + rs[i].len)])))
      && (p + len != rs[i].addr && rs[i].addr + rs[i].len == p ==>
            Inserted(rs, p, len) ==
              if i + 1 < |rs| && rs[i + 1].addr == p + len then
                Some(Spliced(rs, i, i + 2, [Run(rs[i].addr, rs[i].len + len + rs[i + 1].len)]))
              else Some(Spliced(rs, i, i + 1, [Run(rs[i].addr, rs[i].len + len)])))
  {
    var t := rs[i..];
    assert i < |rs| ==> t[0] == rs[i] && t[1..] == rs[i + 1..];
    assert i + 1 < |rs| ==> t[1] == rs[i + 1] && t[2..] == rs[i + 2..];
    forall q: Run, post: seq<Run>
      ensures rs[..i] + ([q] + post) == rs[..i] + [q] + post
    {
      Regroup(rs[..i], q, post);
    }
  }

  lemma Regroup(pre: seq<Run>, q: Run, post: seq<Run>)
    ensures pre + ([q] + post) == pre + [q] + post
  {
  }

  lemma StartOf(rs: seq<Run>, p: int, len: int)
    ensures Inserted(rs, p, len) == Prepended(rs[..0], Inserted(rs[0..], p, len))
    ensures Taken(rs, len) == TakenAfter(rs[..0], Taken(rs[0..], len))
  {
    assert rs[0..] == rs && rs[..0] == [];
    var t, u := Inserted(rs, p, len), Taken(rs, len);
    if t.Some? {
      assert [] + t.value == t.value;
    }
    if u.Some? {
      assert [] + u.value.1 == u.value.1;
    }
  }

  class PageAllocator {
    var mem: map<int, Header>
    var freelist: int
    ghost var runs: seq<Run>

    ghost predicate Valid()
      reads this
    {
      Linked(mem, freelist, runs) && Canonical(runs)
    }

    constructor ()
      ensures Valid() && runs == []
    {
      mem, freelist, runs := map[], 0, [];
    }

    /** p->len and p->next are set and p stored through rp: the runs from i to j give way to the one at p. */
    method Replace(p: int, len: int, next: int, rp: int, ghost i: int, ghost j: int)
      requires Valid() && 0 <= i <= j <= |runs| && rp == LinkTo(runs, i) && next == AddrAt(runs, j) && 0 < p
      requires Canonical(Spliced(runs, i, j, [Run(p, len)]))
      modifies this
      ensures Valid() && runs == Spliced(old(runs), i, j, [Run(p, len)])
    {
      hide Linked;
      SpliceFresh(runs, i, j, Run(p, len));
      SpliceOne(mem, freelist, runs, i, j, Run(p, len));
      mem := mem[p := Header(next, len)];
      if rp == 0 {
        freelist := p;
      } else {
        mem := mem[rp := mem[rp].(next := p)];
      }
      runs := Spliced(runs, i, j, [Run(p, len)]);
    }

    /**
     kfree of a range that is not free, or of one that begins in free memory; true stands for the panic on
     a bad length or a page already free. The range is filled with junk first, links included.
     */
    method Kfree(v: int, len: int) returns (panicked: bool)
      requires Valid() && 0 < v && (Disjoint(runs, v, len) || In(runs, v))
      modifies this
      ensures panicked == (len <= 0 || len % PAGE != 0 || In(old(runs), v))
      ensures !panicked ==> Valid() && Inserted(old(runs), v, len) == Some(runs)
    {
      hide Linked, Canonical, In, Inserted, Spliced, Prepended, Filled, Intact;
      if len <= 0 || len % PAGE != 0 {
        return true;
      }
      ghost var free := In(runs, v);
      ghost var home := Home(mem, freelist, runs, v, len);
      mem := Filled(mem, v, len);
      ghost var i := 0;
      var pend := v + len;
      var rp, r := 0, freelist;
      StartOf(runs, v, len);
      while r != 0 && r <= pend
        invariant runs == old(runs) && mem == Filled(old(mem), v, len) && freelist == old(freelist) && Canonical(runs)
        invariant 0 <= i <= |runs| && r == AddrAt(runs, i) && rp == LinkTo(runs, i)
        invariant free ==>
          Intact(mem, runs, v) && i <= home < |runs| && runs[home].addr <= v < runs[home].addr + runs[home].len
        invariant !free ==> Linked(mem, freelist, runs) && Disjoint(runs, v, len)
        invariant !free ==> Inserted(runs, v, len) == Prepended(runs[..i], Inserted(runs[i..], v, len))
        decreases |runs| - i
      {
        Visit(mem, freelist, runs, v, len, i, home, free);
        var rend := r + mem[r].len;
        if r <= v && v < rend {
          return true;
        }
        if pend == r {
          Replace(v, len + mem[r].len, mem[r].next, rp, i, i + 1);
          return false;
        }
        if rend == v {
          var grown := mem[r].len + len;
          if mem[r].next != 0 && mem[r].next == pend {
            LinkedAt(mem, freelist, runs, i + 1);
            Replace(r, grown + mem[mem[r].next].len, mem[mem[r].next].next, rp, i, i + 2);
          } else {
            Replace(r, grown, mem[r].next, rp, i, i + 1);
          }
          return false;
        }
        rp, r, i := r, mem[r].next, i + 1;
      }
      Passed(mem, freelist, runs, v, len, i, home, free);
      Replace(v, len, r, rp, i, i);
      return false;
    }

    /** kalloc: 0 when nothing fits; panicked for a bad length. */
    method KallocBytes(n: int) returns (a: int, panicked: bool)
      requires Valid()
      modifies this
      ensures Valid() && panicked == (n <= 0 || n % PAGE != 0)
      ensures panicked || a == 0 ==> runs == old(runs)
      ensures !panicked && a == 0 ==> Taken(old(runs), n).None?
      ensures !panicked && a != 0 ==> Taken(old(runs), n) == Some((a, runs))
    {
      hide Linked, Canonical, In, Taken, Spliced, TakenAfter;
      if n % PAGE != 0 || n <= 0 {
        return 0, true;
      }
      ghost var i := 0;
      var rp, r := 0, freelist;
      StartOf(runs, 0, n);
      TakenKeeps(runs, n);
      HeadAt(mem, freelist, runs);
      while r != 0
        invariant Valid() && runs == old(runs) && mem == old(mem) && freelist == old(freelist)
        invariant 0 <= i <= |runs| && r == AddrAt(runs, i) && rp == LinkTo(runs, i)
        invariant Taken(runs, n) == TakenAfter(runs[..i], Taken(runs[i..], n))
        decreases |runs| - i
      {
        LinkedAt(mem, freelist, runs, i);
        TakenHere(runs, i, n);
        if mem[r].len == n {
          SpliceOut(mem, freelist, runs, i);
          if rp == 0 {
            freelist := mem[r].next;
          } else {
            mem := mem[rp := mem[rp].(next := mem[r].next)];
          }
          runs := Spliced(runs, i, i + 1, []);
          return r, false;
        }
        if n < mem[r].len {
          var left := mem[r].len - n;
          Replace(r, left, mem[r].next, rp, i, i + 1);
          return r + left, false;
        }
        rp, r, i := r, mem[r].next, i + 1;
      }
      if i < |runs| {
        LinkedAt(mem, freelist, runs, i);
      }
      TakenEnd(runs, n);
      return 0, false;
    }
  }

  const JUNK: int := 0x0101_0101

  /** memset(v, 1, len): headers in the range are gone. */
  function Filled(mem: map<int, Header>, v: int, len: int): map<int, Header> {
    map a | a in mem :: if v <= a < v + len then Header(JUNK, JUNK) else mem[a]
  }

  /** The headers below v are as they were, and one at v itself has some positive length. */
  ghost predicate Intact(mem: map<int, Header>, rs: seq<Run>, v: int) {
    forall k {:trigger rs[k]} :: 0 <= k < |rs| && rs[k].addr <= v ==>
      && 0 < rs[k].addr && rs[k].addr in mem && 0 < mem[rs[k].addr].len
      && (rs[k].addr < v ==> mem[rs[k].addr] == Header(AddrAt(rs, k + 1), rs[k].len))
  }

  /**
   Filling a range without free bytes leaves the list alone; otherwise the run that holds v is found before any
   junk.
   */
  lemma Home(mem: map<int, Header>, head: int, rs: seq<Run>, v: int, len: int) returns (home: int)
    requires Linked(mem, head, rs) && Canonical(rs) && 0 < len && (Disjoint(rs, v, len) || In(rs, v))
    ensures head == AddrAt(rs, 0)
    ensures In(rs, v) ==>
      Intact(Filled(mem, v, len), rs, v) && 0 <= home < |rs| && rs[home].addr <= v < rs[home].addr + rs[home].len
    ensures !In(rs, v) ==> Linked(Filled(mem, v, len), head, rs) && Disjoint(rs, v, len)
  {
    home := 0;
    if In(rs, v) {
      home :| 0 <= home < |rs| && rs[home].addr <= v < rs[home].addr + rs[home].len;
    } else {
      LinkedIntro(Filled(mem, v, len), head, rs);
    }
  }

  /** One round of the loop of kfree. */
  lemma Visit(mem: map<int, Header>, head: int, rs: seq<Run>, v: int, len: int, i: int, home: int, free: bool)
    requires Canonical(rs) && 0 < len && 0 <= i < |rs|
    requires free ==> Intact(mem, rs, v) && i <= home < |rs| && rs[home].addr <= v < rs[home].addr + rs[home].len
    requires !free ==>
      Linked(mem, head, rs) && Disjoint(rs, v, len)
      && Inserted(rs, v, len) == Prepended(rs[..i], Inserted(rs[i..], v, len)) && rs[i].addr <= v + len
    ensures var r := rs[i].addr;
      && r in mem && 0 < r
      && (free ==>
           && (r <= v < r + mem[r].len <==> i == home)
           && (i < home ==> r + mem[r].len < v && r < v && mem[r].next == AddrAt(rs, i + 1)))
      && (!free ==> mem[r] == Header(AddrAt(rs, i + 1), rs[i].len) && !(r <= v < r + mem[r].len))
      && (!free && v + len == r ==>
            var out := Spliced(rs, i, i + 1, [Run(v, len + rs[i].len)]);
              Inserted(rs, v, len) == Some(out) && Canonical(out))
      && (!free && v + len != r && r + rs[i].len == v ==>
            if i + 1 < |rs| && rs[i + 1].addr == v + len then
              var out := Spliced(rs, i, i + 2, [Run(r, rs[i].len + len + rs[i + 1].len)]);
                Inserted(rs, v, len) == Some(out) && Canonical(out)
            else
              var out := Spliced(rs, i, i + 1, [Run(r, rs[i].len + len)]);
                Inserted(rs, v, len) == Some(out) && Canonical(out))
      && (!free && v + len != r && r + rs[i].len != v ==>
           Inserted(rs, v, len) == Prepended(rs[..i + 1], Inserted(rs[i + 1..], v, len)))
  {
    hide Inserted, Spliced, Prepended, Linked;
    if free {
      assert i < home ==> rs[i].addr + rs[i].len < rs[home].addr;
      assert 0 < rs[i].len;
    } else {
      LinkedAt(mem, head, rs, i);
      InsertedHere(rs, i, v, len);
      InsertedKeeps(rs, v, len);
      assert 0 < rs[i].len && (rs[i].addr + rs[i].len <= v || v + len <= rs[i].addr);
      if v + len != rs[i].addr && rs[i].addr + rs[i].len != v {
        InsertedPast(rs, i, v, len);
      }
    }
  }

  /** The end of the loop of kfree: the range goes before run i. */
  lemma Passed(mem: map<int, Header>, head: int, rs: seq<Run>, v: int, len: int, i: int, home: int, free: bool)
    requires Canonical(rs) && 0 < len && 0 <= i <= |rs| && (AddrAt(rs, i) == 0 || v + len < AddrAt(rs, i))
    requires free ==> Intact(mem, rs, v) && i <= home < |rs| && rs[home].addr <= v < rs[home].addr + rs[home].len
    requires !free ==>
      Linked(mem, head, rs) && Disjoint(rs, v, len)
      && Inserted(rs, v, len) == Prepended(rs[..i], Inserted(rs[i..], v, len))
    ensures !free
    ensures var out := Spliced(rs, i, i, [Run(v, len)]); Inserted(rs, v, len) == Some(out) && Canonical(out)
  {
    hide Inserted, Spliced, Prepended, Linked;
    if i < |rs| {
      LinkedAt(mem, head, rs, i);
    }
    InsertedHere(rs, i, v, len);
    InsertedKeeps(rs, v, len);
  }

  ghost function TakenAfter(pre: seq<Run>, t: Option<(int, seq<Run>)>): Option<(int, seq<Run>)> {
    if t.None? then None else Some((t.value.0, pre + t.value.1))
  }

  lemma TakenHere(rs: seq<Run>, i: int, n: int)
    requires 0 <= i < |rs| && Taken(rs, n) == TakenAfter(rs[..i], Taken(rs[i..], n))
    ensures rs[i].len == n ==> Taken(rs, n) == Some((rs[i].addr, Spliced(rs, i, i + 1, [])))
    ensures n < rs[i].len ==>
      Taken(rs, n) == Some((rs[i].addr + rs[i].len - n, Spliced(rs, i, i + 1, [Run(rs[i].addr, rs[i].len - n)])))
    ensures rs[i].len < n ==> Taken(rs, n) == TakenAfter(rs[..i + 1], Taken(rs[i + 1..], n))
  {
    assert rs[i..][1..] == rs[i + 1..] && rs[i..][0] == rs[i];
    assert rs[..i] + rs[i + 1..] == Spliced(rs, i, i + 1, []);
    Regroup(rs[..i], Run(rs[i].addr, rs[i].len - n), rs[i + 1..]);
    var t := Taken(rs[i + 1..], n);
    if t.Some? {
      assert rs[..i] + ([rs[i]] + t.value.1) == rs[..i + 1] + t.value.1;
    }
  }

  lemma TakenEnd(rs: seq<Run>, n: int)
    ensures TakenAfter(rs[..|rs|], Taken(rs[|rs|..], n)).None?
  {
  }

  /** In a canonical list the new run has no address in common with the runs that stay. */
  lemma SpliceFresh(rs: seq<Run>, i: int, j: int, q: Run)
    requires 0 <= i <= j <= |rs| && Canonical(Spliced(rs, i, j, [q]))
    ensures forall k {:trigger rs[k]} :: 0 <= k < |rs| && !(i <= k < j) ==> rs[k].addr != q.addr
  {
    var out := Spliced(rs, i, j, [q]);
    forall k | 0 <= k < |rs| && !(i <= k < j)
      ensures rs[k].addr != q.addr
    {
      var o := if k < i then k else k - j + i + 1;
      assert out[o] == rs[k] && out[i] == q;
      DistinctAddrs(out, o, i);
    }
  }

  lemma HeadAt(mem: map<int, Header>, head: int, rs: seq<Run>)
    requires Linked(mem, head, rs)
    ensures head == AddrAt(rs, 0)
  {
  }
}
