/** Sequences of node, slot or buffer numbers, as the intrusive lists of the kernel thread them. */
module Lists {
  ghost predicate Distinct(s: seq<int>) {
    forall i, j :: 0 <= i < j < |s| ==> s[i] != s[j]
  }

  ghost predicate InRange(s: seq<int>, n: int) {
    forall i :: 0 <= i < |s| ==> 0 <= s[i] < n
  }

  ghost function After(s: seq<int>, i: int, end: int): int
    requires 0 <= i < |s|
  {
    if i + 1 < |s| then s[i + 1] else end
  }

  ghost function Before(s: seq<int>, i: int, end: int): int
    requires 0 <= i < |s|
  {
    if 0 < i then s[i - 1] else end
  }

  ghost function Without(s: seq<int>, k: int): (r: seq<int>)
    requires 0 <= k < |s|
  {
    s[..k] + s[k + 1..]
  }

  lemma WithoutAt(s: seq<int>, k: int)
    requires 0 <= k < |s|
    ensures |Without(s, k)| == |s| - 1
    ensures forall j {:trigger Without(s, k)[j]} :: 0 <= j < |s| - 1 ==>
      Without(s, k)[j] == s[if j < k then j else j + 1]
    ensures forall n {:trigger InRange(s, n)} :: InRange(s, n) ==> InRange(Without(s, k), n)
    ensures Distinct(s) ==> Distinct(Without(s, k)) && s[k] !in Without(s, k)
  {
  }

  /** Distinct slots: a list of them is no longer than the table, so a pool of as many nodes never runs out. */
  lemma Pigeonhole(s: seq<int>, n: nat)
    requires Distinct(s) && InRange(s, n)
    ensures |s| <= n
    decreases n
  {
    assert s != [] ==> 0 <= s[0] < n;
    if n == 0 {
    } else if exists k :: 0 <= k < |s| && s[k] == n - 1 {
      var k :| 0 <= k < |s| && s[k] == n - 1;
      WithoutAt(s, k);
      Pigeonhole(Without(s, k), n - 1);
    } else {
      Pigeonhole(s, n - 1);
    }
  }
}
