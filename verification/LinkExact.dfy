/**
 The link count of an inode is exactly the number of its names, but for names lost with a freed directory
 (sysfile.c, fs.c).
 */
module LinkExact {
  import opened LinkSpec
  import opened LinkProofs
  import opened LinkRuns

  /**
   By how much the link count exceeds the names and the calls about to add or having removed one; the root has one
   link more.
   */
  ghost function Surplus(s: State, i: int): int
    requires i in s.node
  {
    s.node[i].nlink - |Namers(s.dirs, i)| - |Promises(s.tasks, i)| - (if i == ROOT then 1 else 0)
  }

  /** A file or directory in use has exactly as many links as names and such calls. */
  ghost predicate CountExact(s: State, i: int) {
    i in s.node && s.node[i].kind != 0 ==> Surplus(s, i) == 0
  }

  /** An inode in use has n links too many; a free one has none. */
  ghost predicate Counted(s: State, i: int, n: nat) {
    i in s.node ==> if s.node[i].kind == 0 then n == 0 else Surplus(s, i) == n
  }

  /** iput frees a directory, left over in use after its removal, that has an entry for i, be it its "..". */
  ghost predicate Loses(s: State, e: Event, i: int) {
    && e.Put? && e.i in s.node && Frees(s, e.i) && e.i != i
    && i in s.node && s.node[i].kind != 0
    && exists k {:trigger Names(s.dirs, e.i, k, i)} :: Names(s.dirs, e.i, k, i)
  }

  ghost function NamersIn(dirs: map<int, seq<int>>, d: int, i: int): set<(int, int)> {
    set x | x in Namers(dirs, i) && x.0 == d
  }

  /** How many names of i the event takes away without taking a link back. */
  ghost function Losing(s: State, e: Event, i: int): nat {
    if e.Put? && e.i in s.node && Frees(s, e.i) && e.i != i then |NamersIn(s.dirs, e.i, i)| else 0
  }

  lemma LosesExactly(s: State, e: Event, i: int)
    requires i in s.node && s.node[i].kind != 0
    ensures Loses(s, e, i) <==> Losing(s, e, i) > 0
  {
    if e.Put? {
      NamersInNone(s.dirs, e.i, i);
    }
  }

  lemma NamersInNone(dirs: map<int, seq<int>>, d: int, i: int)
    ensures NamersIn(dirs, d, i) == {} <==> forall k {:trigger Names(dirs, d, k, i)} :: !Names(dirs, d, k, i)
  {
    if k :| Names(dirs, d, k, i) {
      assert (d, k) in NamersIn(dirs, d, i);
    }
    if x :| x in NamersIn(dirs, d, i) {
      assert Names(dirs, d, x.1, i);
    }
  }

  // ---------------------------------------------------------------- counting

  lemma NamersAdd(dirs: map<int, seq<int>>, d: int, i: int, j: int)
    requires d in dirs && i != d && i != 0 && j != 0
    ensures var more := dirs[d := WithEntry(dirs[d], i)];
      |Namers(more, j)| == |Namers(dirs, j)| + (if i == j then 1 else 0)
  {
    var more, k := dirs[d := WithEntry(dirs[d], i)], FirstEmpty(dirs[d]);
    forall x: (int, int)
      ensures x in Namers(more, j) <==> x in Namers(dirs, j) || (i == j && x == (d, k))
    {
      assert Names(more, x.0, x.1, j) <==> Names(dirs, x.0, x.1, j) || (i == j && x == (d, k));
    }
    assert (d, k) !in Namers(dirs, j);
    if i == j {
      assert Namers(more, j) == Namers(dirs, j) + {(d, k)};
    } else {
      assert Namers(more, j) == Namers(dirs, j);
    }
  }

  lemma NamersCut(dirs: map<int, seq<int>>, d: int, k: int, j: int)
    requires d in dirs && 0 <= k < |dirs[d]| && dirs[d][k] != 0 && dirs[d][k] != d && j != 0
    ensures |Namers(dirs[d := dirs[d][k := 0]], j)| == |Namers(dirs, j)| - (if dirs[d][k] == j then 1 else 0)
  {
    var less, i := dirs[d := dirs[d][k := 0]], dirs[d][k];
    forall x: (int, int)
      ensures x in Namers(less, j) <==> x in Namers(dirs, j) && x != (d, k)
    {
      assert Names(less, x.0, x.1, j) <==> Names(dirs, x.0, x.1, j) && x != (d, k);
    }
    assert Namers(less, j) == Namers(dirs, j) - {(d, k)};
    assert (d, k) in Namers(dirs, j) <==> Names(dirs, d, k, j);
  }

  lemma NamesDots(dirs: map<int, seq<int>>, i: int, d: int, j: int, a: int, k: int)
    requires i !in dirs && i != d
    ensures Names(dirs[i := [i, d]], a, k, j) <==> Names(dirs, a, k, j) || (j == d && a == i && k == 1)
  {
  }

  /** A new directory names its parent; its own dot does not count. */
  lemma NamersDots(dirs: map<int, seq<int>>, i: int, d: int, j: int)
    requires i !in dirs && i != d
    ensures |Namers(dirs[i := [i, d]], j)| == |Namers(dirs, j)| + (if j == d then 1 else 0)
  {
    var more := dirs[i := [i, d]];
    forall x: (int, int)
      ensures x in Namers(more, j) <==> x in Namers(dirs, j) || (j == d && x == (i, 1))
    {
      NamesDots(dirs, i, d, j, x.0, x.1);
    }
    assert (i, 1) !in Namers(dirs, j);
    if j == d {
      assert Namers(more, j) == Namers(dirs, j) + {(i, 1)};
    } else {
      assert Namers(more, j) == Namers(dirs, j);
    }
  }

  /** Freeing directory d takes its names of j away. */
  lemma NamersGone(dirs: map<int, seq<int>>, d: int, j: int)
    ensures |Namers(dirs - {d}, j)| == |Namers(dirs, j)| - |NamersIn(dirs, d, j)|
  {
    var less := dirs - {d};
    forall x: (int, int)
      ensures x in Namers(less, j) <==> x in Namers(dirs, j) && x.0 != d
    {
      assert Names(less, x.0, x.1, j) <==> Names(dirs, x.0, x.1, j) && x.0 != d;
    }
    assert Namers(less, j) == Namers(dirs, j) - NamersIn(dirs, d, j);
  }

  // ---------------------------------------------------------------- steps

  lemma PutCounts(s: State, i: int, j: int, n: nat)
    requires Inv(s) && Enabled(s, Put(i)) && Counted(s, j, n)
    ensures Counted(Step(s, Put(i)), j, n + Losing(s, Put(i), j))
  {
    if j in s.node && s.node[j].kind == 0 {
      FreeUnnamed(s, j);
    }
    assert CountOk(s, j);
    hide Namers, Promises, CountsOk, DirsOk, NoneDangle;
    if Frees(s, i) && i != j {
      NamersGone(s.dirs, i, j);
      assert Namers(s.dirs, j) == {} ==> NamersIn(s.dirs, i, j) == {};
    }
  }

  lemma TaskCounts(s: State, e: Event, j: int, n: nat)
    requires Inv(s) && Enabled(s, e) && Counted(s, j, n)
      && (e.LinkInc? || e.LinkAdd? || e.LinkFail? || e.UnlinkClear? || e.UnlinkDec?)
    ensures Counted(Step(s, e), j, n)
  {
    hide Namers, Promises, CountsOk, FirstEmpty, WithEntry;
    match e {
      case LinkInc(p, i) => PromisesMore(s.tasks, p, Linking(i), j);
      case LinkAdd(p, d) =>
        PromisesLess(s.tasks, p, j);
        if j in s.node {
          NamersAdd(s.dirs, d, s.tasks[p].i, j);
        }
      case LinkFail(p) => PromisesLess(s.tasks, p, j);
      case UnlinkClear(p, d, k) =>
        PromisesMore(s.tasks, p, Unlinking(s.dirs[d][k]), j);
        if j in s.node {
          NamersCut(s.dirs, d, k, j);
        }
      case UnlinkDec(p) => PromisesLess(s.tasks, p, j);
    }
  }

  lemma CreateCounts(s: State, d: int, i: int, kind: int, j: int, n: nat)
    requires Inv(s) && Enabled(s, Create(d, i, kind)) && i !in s.refs && Counted(s, j, n)
    ensures Counted(Created(s, d, i, kind), j, n)
  {
    hide CountsOk, FirstEmpty, WithEntry;
    assert s.refs[i] == 0;
    assert |Promises(s.tasks, i)| == 0;
    hide Promises;
    if j in s.node {
      FreeUnnamed(s, i);
      hide Namers;
      assert i != d && i !in s.dirs && i != ROOT;
      NamersAdd(s.dirs, d, i, j);
      if kind == T_DIR {
        DotEntries(i, d);
        NamersDots(s.dirs[d := WithEntry(s.dirs[d], i)], i, d, j);
      }
    }
  }

  /** Every step adds to the links an inode has too many exactly the names it loses. */
  lemma StepCounts(s: State, e: Event, j: int, n: nat)
    requires Inv(s) && Enabled(s, e) && Clean(s, e) && Counted(s, j, n)
    ensures Counted(Step(s, e), j, n + Losing(s, e, j))
  {
    hide CountsOk, Namers, Promises;
    match e {
      case Put(i) => PutCounts(s, i, j, n);
      case Create(d, i, kind) =>
        assert s.refs[i] == 0;
        CreateCounts(s, d, i, kind, j, n);
      case GetRoot =>
      case Dup(i) =>
      case Lookup(d, k) =>
      case Load(i) =>
      case FreeEnd(i) =>
      case CreateFail(d, i, kind) =>
      case _ => TaskCounts(s, e, j, n);
    }
  }

  /**
   Every step keeps the counts exact, but for exactly one: a removed directory freed with an entry for the inode in
   it.
   */
  lemma StepExact(s: State, e: Event, j: int)
    requires Inv(s) && Enabled(s, e) && Clean(s, e) && CountExact(s, j)
    ensures CountExact(Step(s, e), j) <==> !Loses(s, e, j)
  {
    hide Inv, Enabled, Step, Surplus, Losing, Loses;
    StepCounts(s, e, j, 0);
    SameInodes(s, e);
    if j in s.node && s.node[j].kind != 0 {
      LosesExactly(s, e, j);
    } else {
      NotLost(s, e, j);
    }
  }

  lemma SameInodes(s: State, e: Event)
    requires Enabled(s, e)
    ensures forall j {:trigger j in s.node} {:trigger j in Step(s, e).node} :: j in s.node <==> j in Step(s, e).node
  {
  }

  /** A free inode has no names to lose. */
  lemma NotLost(s: State, e: Event, j: int)
    requires Inv(s) && (j in s.node ==> s.node[j].kind == 0)
    ensures !Loses(s, e, j) && (j in s.node ==> Losing(s, e, j) == 0)
  {
    if j in s.node {
      FreeUnnamed(s, j);
    }
  }

  // ---------------------------------------------------------------- runs

  lemma ImageExact(files: nat, ninodes: int, j: int)
    requires files + 2 <= ninodes
    ensures CountExact(Image(files, ninodes), j) && Counted(Image(files, ninodes), j, 0)
  {
    var s := Image(files, ninodes);
    assert Promises(s.tasks, j) == {};
    var all := if 2 <= j < files + 2 then {(ROOT, j)} else {};
    if j in s.node {
      forall x: (int, int)
        ensures x in Namers(s.dirs, j) <==> x in all
      {
        assert Names(s.dirs, x.0, x.1, j) <==> x in all;
      }
      assert Namers(s.dirs, j) == all;
    }
  }

  ghost predicate NeverLoses(s: State, es: seq<Event>, j: int)
    requires CleanRun(s, es)
    decreases |es|
  {
    es == [] || (!Loses(s, es[0], j) && NeverLoses(Step(s, es[0]), es[1..], j))
  }

  /** In every such run an inode's link count is the number of its names and of calls under way. */
  lemma {:induction false} RunExact(s: State, es: seq<Event>, j: int)
    requires Inv(s) && CleanRun(s, es) && CountExact(s, j) && NeverLoses(s, es, j)
    ensures CountExact(Final(s, es), j)
    decreases |es|
  {
    hide Inv, CountExact, Loses;
    if es != [] {
      StepKeeps(s, es[0]);
      StepExact(s, es[0], j);
      RunExact(Step(s, es[0]), es[1..], j);
    }
  }

  /** How many names of j a run loses. */
  ghost function Lost(s: State, es: seq<Event>, j: int): nat
    requires CleanRun(s, es)
    decreases |es|
  {
    if es == [] then 0 else Losing(s, es[0], j) + Lost(Step(s, es[0]), es[1..], j)
  }

  /** After any run an inode in use has as many links too many as it has lost names; a free one has lost none. */
  lemma {:induction false} RunCounts(s: State, es: seq<Event>, j: int, n: nat)
    requires Inv(s) && CleanRun(s, es) && Counted(s, j, n)
    ensures Counted(Final(s, es), j, n + Lost(s, es, j))
    decreases |es|
  {
    hide Inv, Counted, Losing, Enabled, Step, Clean;
    if es != [] {
      StepKeeps(s, es[0]);
      StepCounts(s, es[0], j, n);
      RunCounts(Step(s, es[0]), es[1..], j, n + Losing(s, es[0], j));
    }
  }

  // ---------------------------------------------------------------- the failing run

  /** A directory just made; then removed while in use; then a file made in it; then it is freed. */
  function Opened(): State {
    State(map[1 := Node(T_DIR, 2), 2 := Node(T_DIR, 1), 3 := Node(0, 0)], map[1 := [1, 1, 2], 2 := [2, 1]],
          multiset{1, 2}, {1, 2}, {}, map[])
  }

  function Cutting(): State {
    Opened().(dirs := map[1 := [1, 1, 0], 2 := [2, 1]], refs := multiset{1, 2, 2}, tasks := map[7 := Unlinking(2)])
  }

  function Unlinked(): State {
    State(map[1 := Node(T_DIR, 2), 2 := Node(T_DIR, 0), 3 := Node(0, 0)], map[1 := [1, 1, 0], 2 := [2, 1]],
          multiset{1, 2, 2}, {1, 2}, {}, map[])
  }

  function Filled(): State {
    State(map[1 := Node(T_DIR, 2), 2 := Node(T_DIR, 0), 3 := Node(T_FILE, 1)], map[1 := [1, 1, 0], 2 := [2, 1, 3]],
          multiset{1, 2, 3}, {1, 2, 3}, {}, map[])
  }

  lemma OpenedFrom() returns (es: seq<Event>)
    ensures CleanRun(Image(0, 4), es) && Final(Image(0, 4), es) == Opened()
  {
    var s0 := Image(0, 4);
    assert s0.node == map[1 := Node(T_DIR, 1), 2 := Node(0, 0), 3 := Node(0, 0)];
    assert [ROOT, ROOT] + Entries(0) == [1, 1];
    Extend(s0, [], GetRoot);
    Extend(s0, [] + [GetRoot], Create(ROOT, 2, T_DIR));
    es := [] + [GetRoot] + [Create(ROOT, 2, T_DIR)];
    assert WithEntry([1, 1], 2) == [1, 1, 2];
    DotEntries(2, 1);
  }

  lemma ToCutting()
    ensures Enabled(Opened(), UnlinkClear(7, 1, 2)) && Step(Opened(), UnlinkClear(7, 1, 2)) == Cutting()
  {
    assert [1, 1, 2][2 := 0] == [1, 1, 0];
  }

  lemma ToUnlinked()
    ensures Enabled(Cutting(), UnlinkDec(7)) && Step(Cutting(), UnlinkDec(7)) == Unlinked()
  {
  }

  lemma ToLeft()
    ensures Enabled(Unlinked(), Put(2)) && Step(Unlinked(), Put(2)) == Unlinked().(refs := multiset{1, 2})
  {
    assert Promises(map[], 2) == {};
  }

  lemma ToFilled()
    ensures var s := Unlinked().(refs := multiset{1, 2});
      Enabled(s, Create(2, 3, T_FILE)) && Clean(s, Create(2, 3, T_FILE)) && Step(s, Create(2, 3, T_FILE)) == Filled()
  {
    assert WithEntry([2, 1], 3) == [2, 1, 3];
  }

  lemma ToLost()
    ensures Enabled(Filled(), Put(2)) && Loses(Filled(), Put(2), 3) && !CountExact(Step(Filled(), Put(2)), 3)
  {
    assert Promises(map[], 2) == {} && Promises(map[], 3) == {};
    assert Names(Filled().dirs, 2, 2, 3);
    var t := Step(Filled(), Put(2));
    assert Namers(t.dirs, 3) == {};
  }

  /**
   A directory is removed while in use and a file made in it; with the directory freed the file has one link and no
   name.
   */
  lemma RemovedDirectoryLoses() returns (es: seq<Event>, e: Event)
    ensures CleanRun(Image(0, 4), es)
    ensures var s := Final(Image(0, 4), es);
      Enabled(s, e) && Clean(s, e) && Loses(s, e, 3) && !CountExact(Step(s, e), 3)
  {
    hide Image, CleanRun, Final, Step, Enabled, Opened, Cutting, Unlinked, Filled, Loses, CountExact;
    var s0 := Image(0, 4);
    es := OpenedFrom();
    ToCutting();
    Extend(s0, es, UnlinkClear(7, 1, 2));
    es := es + [UnlinkClear(7, 1, 2)];
    ToUnlinked();
    Extend(s0, es, UnlinkDec(7));
    es := es + [UnlinkDec(7)];
    ToLeft();
    Extend(s0, es, Put(2));
    es := es + [Put(2)];
    ToFilled();
    Extend(s0, es, Create(2, 3, T_FILE));
    es := es + [Create(2, 3, T_FILE)];
    ToLost();
    e := Put(2);
  }

  lemma ToDrifted()
    ensures var s := Unlinked().(refs := multiset{1, 2});
      Enabled(s, Put(2)) && Loses(s, Put(2), ROOT) && !CountExact(Step(s, Put(2)), ROOT)
  {
    var s := Unlinked().(refs := multiset{1, 2});
    assert Promises(map[], 2) == {} && Promises(map[], ROOT) == {};
    assert Names(s.dirs, 2, 1, ROOT);
    var t := Step(s, Put(2));
    assert Namers(t.dirs, ROOT) == {};
  }

  /** A directory is made and removed: the root keeps the link for its "..". */
  lemma RootDrifts() returns (es: seq<Event>, e: Event)
    ensures CleanRun(Image(0, 4), es)
    ensures var s := Final(Image(0, 4), es);
      Enabled(s, e) && Clean(s, e) && Loses(s, e, ROOT) && !CountExact(Step(s, e), ROOT)
  {
    hide Image, CleanRun, Final, Step, Enabled, Opened, Cutting, Unlinked, Loses, CountExact;
    var s0 := Image(0, 4);
    es := OpenedFrom();
    ToCutting();
    Extend(s0, es, UnlinkClear(7, 1, 2));
    es := es + [UnlinkClear(7, 1, 2)];
    ToUnlinked();
    Extend(s0, es, UnlinkDec(7));
    es := es + [UnlinkDec(7)];
    ToLeft();
    Extend(s0, es, Put(2));
    es := es + [Put(2)];
    ToDrifted();
    e := Put(2);
  }
}
