/** Who takes and drops references to inodes, and what becomes of their kinds (fs.c, sysfile.c). */
module LinkRefs {
  import opened LinkSpec
  import opened LinkProofs
  import opened LinkRuns

  // ---------------------------------------------------------------- references

  /** Entry k of directory d has the number j. */
  predicate EntryIs(s: State, d: int, k: int, j: int) {
    d in s.dirs && 0 <= k < |s.dirs[d]| && s.dirs[d][k] == j
  }

  /** The event takes a reference to j: iget of the root, idup, or iget for an entry or a new inode. */
  predicate Takes(s: State, e: Event, j: int) {
    || (e.GetRoot? && j == ROOT)
    || (e.Dup? && e.i == j)
    || ((e.Lookup? || e.UnlinkClear?) && EntryIs(s, e.d, e.k, j))
    || ((e.Create? || e.CreateFail?) && e.i == j && j !in s.dying)
  }

  /** The event drops a reference to j: an iput that frees nothing, or the end of one that does. */
  predicate Drops(s: State, e: Event, j: int) {
    || (e.Put? && e.i == j && j in s.node && !(s.refs[j] == 1 && j in s.valid && s.node[j].nlink == 0))
    || (e.FreeEnd? && e.i == j)
  }

  lemma RefsStep(s: State, e: Event, j: int)
    requires Inv(s) && Enabled(s, e) && Clean(s, e)
    ensures Step(s, e).refs[j] == s.refs[j] + (if Takes(s, e, j) then 1 else 0) - (if Drops(s, e, j) then 1 else 0)
  {
    hide DirsOk, NoneDangle, CountsOk, Namers, Promises, FirstEmpty, WithEntry, DirEmpty;
    match e {
      case FreeEnd(i) => assert s.refs[i] == 1;
      case Create(d, i, kind) =>
        assert s.refs[i] == 0;
        assert i !in s.dying;
      case _ =>
    }
  }

  ghost function Taken(s: State, es: seq<Event>, j: int): nat
    requires CleanRun(s, es)
    decreases |es|
  {
    if es == [] then 0 else (if Takes(s, es[0], j) then 1 else 0) + Taken(Step(s, es[0]), es[1..], j)
  }

  ghost function Dropped(s: State, es: seq<Event>, j: int): nat
    requires CleanRun(s, es)
    decreases |es|
  {
    if es == [] then 0 else (if Drops(s, es[0], j) then 1 else 0) + Dropped(Step(s, es[0]), es[1..], j)
  }

  /** In every run the references to an inode are those taken and not dropped. */
  lemma {:induction false} RefsExact(s: State, es: seq<Event>, j: int)
    requires Inv(s) && CleanRun(s, es)
    ensures Final(s, es).refs[j] == s.refs[j] + Taken(s, es, j) - Dropped(s, es, j)
    decreases |es|
  {
    hide Inv, Takes, Drops, Enabled, Step, Clean;
    if es != [] {
      StepKeeps(s, es[0]);
      RefsStep(s, es[0], j);
      RefsExact(Step(s, es[0]), es[1..], j);
    }
  }

  // ---------------------------------------------------------------- kinds

  /** An inode gets its kind from create and keeps it until an iput frees it. */
  lemma KindStep(s: State, e: Event, j: int)
    requires Inv(s) && Enabled(s, e) && Clean(s, e) && j in s.node
    ensures j in Step(s, e).node
    ensures Step(s, e).node[j].kind ==
      if e.Create? && e.i == j then e.kind
      else if e == Put(j) && s.refs[j] == 1 && j in s.valid && s.node[j].nlink == 0 then 0
      else s.node[j].kind
  {
    hide DirsOk, NoneDangle, CountsOk, Namers, Promises, FirstEmpty, WithEntry, DirEmpty;
    match e {
      case Create(d, i, kind) =>
        assert s.refs[i] == 0;
        assert i !in s.dying;
      case _ =>
    }
  }

  /** What create last made of j in the run, or 0 if an iput has freed it since; k if neither has happened. */
  ghost function KindAfter(s: State, es: seq<Event>, j: int, k: int): int
    requires CleanRun(s, es)
    decreases |es|
  {
    if es == [] then k
    else KindAfter(Step(s, es[0]), es[1..], j, if es[0].Create? && es[0].i == j then es[0].kind
      else if es[0] == Put(j) && j in s.node && Frees(s, j) then 0 else k)
  }

  /** In every run an inode is of the kind it was last created with, or free if it has been freed since. */
  lemma {:induction false} KindExact(s: State, es: seq<Event>, j: int)
    requires Inv(s) && CleanRun(s, es) && j in s.node
    ensures j in Final(s, es).node && Final(s, es).node[j].kind == KindAfter(s, es, j, s.node[j].kind)
    decreases |es|
  {
    hide Inv, Enabled, Step, Clean;
    if es != [] {
      StepKeeps(s, es[0]);
      KindStep(s, es[0], j);
      KindExact(Step(s, es[0]), es[1..], j);
    }
  }
}
