/** What load_balance takes from a queue and what it leaves there (sched_MLFQ.c, sched_RR.c, sched_fifo.c). */
module BalanceSpec {
  import opened Lists

  /** Half of the queue, rounded down, right behind its head. */
  function Moved(s: seq<int>): (r: seq<int>)
    ensures |r| == |s| / 2
  {
    if s == [] then [] else s[1..1 + |s| / 2]
  }

  function Kept(s: seq<int>): (r: seq<int>) {
    if s == [] then [] else [s[0]] + s[1 + |s| / 2..]
  }

  /** Nothing is lost and nothing is queued twice; the source keeps its head and the larger half. */
  lemma SplitConserves(s: seq<int>)
    ensures multiset(Kept(s)) + multiset(Moved(s)) == multiset(s)
    ensures |Kept(s)| == (|s| + 1) / 2 && |Moved(s)| == |s| / 2
    ensures s != [] ==> Kept(s) != [] && Kept(s)[0] == s[0]
  {
    if s != [] {
      var m := |s| / 2;
      assert s == [s[0]] + s[1..1 + m] + s[1 + m..];
    }
  }

  /** The queue is its head, what is moved, and the rest of what is kept. */
  lemma SplitExactly(s: seq<int>)
    requires s != []
    ensures Kept(s) != [] && s == [s[0]] + Moved(s) + Kept(s)[1..] && Kept(s)[0] == s[0] && |Moved(s)| == |s| / 2
  {
    assert Kept(s)[1..] == s[1 + |s| / 2..];
  }

  /** A queue balanced with itself: half of it, behind its head, goes to the end. */
  function Shuffled(q: seq<int>): (r: seq<int>) {
    Kept(q) + Moved(q)
  }

  /** One level of the machine: the queue of every CPU, after half of src has gone to dst. */
  function Balanced(qs: seq<seq<int>>, src: int, dst: int): (r: seq<seq<int>>)
    requires 0 <= src < |qs| && 0 <= dst < |qs|
    ensures |r| == |qs|
  {
    var left := qs[src := Kept(qs[src])];
    left[dst := left[dst] + Moved(qs[src])]
  }

  function All(qs: seq<seq<int>>): multiset<int>
    decreases |qs|
  {
    if qs == [] then multiset{} else multiset(qs[0]) + All(qs[1..])
  }

  lemma {:induction false} AllChange(qs: seq<seq<int>>, i: int, q: seq<int>, taken: multiset<int>)
    requires 0 <= i < |qs| && multiset(q) + taken == multiset(qs[i])
    ensures All(qs[i := q]) + taken == All(qs)
    decreases |qs|
  {
    var r := qs[i := q];
    if i == 0 {
      assert r[1..] == qs[1..];
    } else {
      assert r[1..] == qs[1..][i - 1 := q];
      AllChange(qs[1..], i - 1, q, taken);
    }
  }

  /** Balancing conserves the multiset of queued processes over all CPUs, also when a CPU balances with itself. */
  lemma BalancedConserves(qs: seq<seq<int>>, src: int, dst: int)
    requires 0 <= src < |qs| && 0 <= dst < |qs|
    ensures All(Balanced(qs, src, dst)) == All(qs)
    ensures src == dst ==> multiset(Balanced(qs, src, dst)[src]) == multiset(qs[src])
  {
    hide Kept, Moved, All;
    var left, after := qs[src := Kept(qs[src])], Balanced(qs, src, dst);
    var moved := multiset(Moved(qs[src]));
    SplitConserves(qs[src]);
    AllChange(qs, src, Kept(qs[src]), moved);
    AllChange(after, dst, left[dst], moved);
    assert after[dst := left[dst]] == left;
  }

  /** With every process queued at most once, no queue outgrows the table: there is a free node for every enqueue. */
  ghost predicate Once(qs: seq<seq<int>>, n: int) {
    forall p {:trigger All(qs)[p]} :: All(qs)[p] <= 1 && (All(qs)[p] > 0 ==> 0 <= p < n)
  }

  lemma OnceDistinct(s: seq<int>, m: multiset<int>, n: nat)
    requires m == multiset(s) && forall p {:trigger m[p]} :: m[p] <= 1 && (m[p] > 0 ==> 0 <= p < n)
    ensures Distinct(s) && InRange(s, n)
  {
    forall i, j | 0 <= i < j < |s|
      ensures s[i] != s[j]
    {
      var x: int := s[i];
      OnceAt(m, n, x);
      assert s == s[..j] + [s[j]] + s[j + 1..];
      assert m == multiset(s[..j]) + multiset{s[j]} + multiset(s[j + 1..]);
      assert s[..j][i] in s[..j] && multiset(s[..j])[x] >= 1;
    }
    forall i | 0 <= i < |s|
      ensures 0 <= s[i] < n
    {
      OnceAt(m, n, s[i]);
      assert s[i] in m;
    }
  }

  lemma OnceAt(m: multiset<int>, n: nat, x: int)
    requires forall p {:trigger m[p]} :: m[p] <= 1 && (m[p] > 0 ==> 0 <= p < n)
    ensures m[x] <= 1 && (m[x] > 0 ==> 0 <= x < n)
  {
  }

  /** Both the queues taken from and the queue added to have room, at every moment of the move. */
  lemma BalancedFits(qs: seq<seq<int>>, src: int, dst: int, n: nat)
    requires 0 <= src < |qs| && 0 <= dst < |qs| && Once(qs, n)
    ensures Once(Balanced(qs, src, dst), n)
    ensures |Balanced(qs, src, dst)[dst]| <= n
  {
    BalancedConserves(qs, src, dst);
    var after := Balanced(qs, src, dst);
    var m := multiset(after[dst]);
    AllChange(after, dst, [], m);
    assert forall p {:trigger m[p]} :: m[p] <= All(after)[p];
    OnceDistinct(after[dst], m, n);
    Pigeonhole(after[dst], n);
  }
}
