/** Whole runs of the link-count protocol from the image mkfs writes (sysfile.c, fs.c, mkfs.c). */
module LinkRuns {
  import opened LinkSpec
  import opened LinkProofs

  const T_FILE: int := 2

  // ---------------------------------------------------------------- the image

  function Entries(files: nat): (es: seq<int>)
    ensures |es| == files
    ensures forall k {:trigger es[k]} :: 0 <= k < files ==> es[k] == k + 2
  {
    seq(files, k => k + 2)
  }

  predicate Inum(i: int, ninodes: int) {
    1 <= i < ninodes
  }

  /** mkfs: the root with its two dots, and one entry and one link for every file. */
  function Image(files: nat, ninodes: int): State
    requires files + 2 <= ninodes
  {
    State(map i | 1 <= i < ninodes && Inum(i, ninodes) ::
      if i == ROOT then Node(T_DIR, 1) else if i < files + 2 then Node(T_FILE, 1) else Node(0, 0),
          map[ROOT := [ROOT, ROOT] + Entries(files)], multiset{}, {}, {}, map[])
  }

  lemma ImageCount(files: nat, ninodes: int, i: int)
    requires files + 2 <= ninodes
    ensures CountOk(Image(files, ninodes), i)
  {
    var s := Image(files, ninodes);
    var es := s.dirs[ROOT];
    var bound := if 2 <= i < files + 2 then {(ROOT, i)} else {};
    assert Promises(s.tasks, i) == {};
    if i in s.node {
      forall x | x in Namers(s.dirs, i)
        ensures x in bound
      {
        assert Names(s.dirs, x.0, x.1, i);
        assert x.0 == ROOT && es[x.1] == i;
      }
      SubsetCard(Namers(s.dirs, i), bound);
    }
  }

  lemma ImageOk(files: nat, ninodes: int)
    requires files + 2 <= ninodes
    ensures Inv(Image(files, ninodes))
  {
    var s := Image(files, ninodes);
    forall i
      ensures CountOk(s, i)
    {
      ImageCount(files, ninodes, i);
    }
    assert forall i {:trigger Promises(s.tasks, i)} :: Promises(s.tasks, i) == {};
    hide CountOk, Promises;
  }

  // ---------------------------------------------------------------- runs

  /** Each event is enabled in turn, and every ialloc finds an inode nobody refers to. */
  ghost predicate CleanRun(s: State, es: seq<Event>)
    decreases |es|
  {
    es == [] || (Enabled(s, es[0]) && Clean(s, es[0]) && CleanRun(Step(s, es[0]), es[1..]))
  }

  ghost function Final(s: State, es: seq<Event>): State
    requires CleanRun(s, es)
    decreases |es|
  {
    if es == [] then s else Final(Step(s, es[0]), es[1..])
  }

  lemma {:induction false} RunKeeps(s: State, es: seq<Event>)
    requires Inv(s) && CleanRun(s, es)
    ensures Inv(Final(s, es))
    decreases |es|
  {
    if es != [] {
      StepKeeps(s, es[0]);
      RunKeeps(Step(s, es[0]), es[1..]);
    }
  }

  /** At every point of every such run: counts cover names, nothing named is free, unlink does not panic. */
  lemma LinksSafe(files: nat, ninodes: int, es: seq<Event>, e: Event)
    requires files + 2 <= ninodes && CleanRun(Image(files, ninodes), es)
    ensures var s := Final(Image(files, ninodes), es);
      && (forall i {:trigger Namers(s.dirs, i)} :: i in s.node ==> |Namers(s.dirs, i)| <= s.node[i].nlink)
      && (forall d, k, i {:trigger Names(s.dirs, d, k, i)} :: Names(s.dirs, d, k, i) && i != 0 ==>
           i in s.node && s.node[i].kind != 0)
      && (Enabled(s, e) ==> !Panics(s, e))
  {
    ImageOk(files, ninodes);
    RunKeeps(Image(files, ninodes), es);
    var s := Final(Image(files, ninodes), es);
    forall i | i in s.node
      ensures |Namers(s.dirs, i)| <= s.node[i].nlink
    {
      assert CountOk(s, i);
    }
    if Enabled(s, e) {
      NeverPanics(s, e);
    }
  }

  // ---------------------------------------------------------------- the race

  predicate Dangles(s: State, d: int, k: int) {
    d in s.dirs && 0 <= k < |s.dirs[d]| && s.dirs[d][k] in s.node && s.node[s.dirs[d][k]].kind == 0
  }

  lemma {:induction false} Extend(s: State, es: seq<Event>, e: Event)
    requires CleanRun(s, es) && Enabled(Final(s, es), e) && Clean(Final(s, es), e)
    ensures CleanRun(s, es + [e]) && Final(s, es + [e]) == Step(Final(s, es), e)
    decreases |es|
  {
    hide Enabled, Step, Clean;
    if es == [] {
      assert [e][1..] == [];
      assert es + [e] == [e];
    } else {
      assert (es + [e])[1..] == es[1..] + [e];
      Extend(Step(s, es[0]), es[1..], e);
    }
  }

  /**
   A file just made in a new file system; then its name gone; then both references dropped, the second still
   freeing.
   */
  function Made(): State {
    State(map[1 := Node(T_DIR, 1), 2 := Node(T_FILE, 1)], map[1 := [1, 1, 2]], multiset{1, 2}, {1, 2}, {}, map[])
  }

  function Removing(): State {
    State(map[1 := Node(T_DIR, 1), 2 := Node(T_FILE, 1)], map[1 := [1, 1, 0]], multiset{1, 2, 2}, {1, 2}, {},
      map[7 := Unlinking(2)])
  }

  function Removed(): State {
    State(map[1 := Node(T_DIR, 1), 2 := Node(T_FILE, 0)], map[1 := [1, 1, 0]], multiset{1, 2, 2}, {1, 2}, {}, map[])
  }

  function Dropped(): State {
    Removed().(refs := multiset{1, 2})
  }

  function Freeing(): State {
    Dropped().(node := map[1 := Node(T_DIR, 1), 2 := Node(0, 0)], dying := {2})
  }

  lemma MadeFrom() returns (es: seq<Event>)
    ensures CleanRun(Image(0, 3), es) && Final(Image(0, 3), es) == Made()
  {
    var s0 := Image(0, 3);
    assert s0.node == map[1 := Node(T_DIR, 1), 2 := Node(0, 0)];
    assert [ROOT, ROOT] + Entries(0) == [1, 1];
    Extend(s0, [], GetRoot);
    Extend(s0, [] + [GetRoot], Create(ROOT, 2, T_FILE));
    es := [] + [GetRoot] + [Create(ROOT, 2, T_FILE)];
    assert WithEntry([1, 1], 2) == [1, 1, 2];
  }

  lemma ToRemoving()
    ensures Enabled(Made(), UnlinkClear(7, 1, 2)) && Step(Made(), UnlinkClear(7, 1, 2)) == Removing()
  {
    assert [1, 1, 2][2 := 0] == [1, 1, 0];
  }

  lemma ToRemoved()
    ensures Enabled(Removing(), UnlinkDec(7)) && Step(Removing(), UnlinkDec(7)) == Removed()
  {
  }

  lemma ToDropped()
    ensures Enabled(Removed(), Put(2)) && Step(Removed(), Put(2)) == Dropped()
  {
    assert Promises(map[], 2) == {};
  }

  lemma ToFreeing()
    ensures Enabled(Dropped(), Put(2)) && Step(Dropped(), Put(2)) == Freeing()
  {
    assert Promises(map[], 2) == {};
  }

  lemma ToDangling()
    ensures Enabled(Freeing(), Create(1, 2, T_FILE)) && Dangles(Step(Freeing(), Create(1, 2, T_FILE)), 1, 2)
  {
    assert WithEntry([1, 1, 0], 2) == [1, 1, 2];
  }

  /**
   A file is created and removed; before iput drops the last reference another create takes the inode: a dangling
   name.
   */
  lemma StaleCreate() returns (es: seq<Event>, e: Event)
    ensures CleanRun(Image(0, 3), es)
    ensures var s := Final(Image(0, 3), es); Enabled(s, e) && Dangles(Step(s, e), ROOT, 2)
  {
    hide Image, CleanRun, Final, Step, Enabled, Made, Removing, Removed, Dropped, Freeing, Dangles;
    var s0 := Image(0, 3);
    es := MadeFrom();
    ToRemoving();
    Extend(s0, es, UnlinkClear(7, 1, 2));
    es := es + [UnlinkClear(7, 1, 2)];
    ToRemoved();
    Extend(s0, es, UnlinkDec(7));
    es := es + [UnlinkDec(7)];
    ToDropped();
    Extend(s0, es, Put(2));
    es := es + [Put(2)];
    ToFreeing();
    Extend(s0, es, Put(2));
    es := es + [Put(2)];
    ToDangling();
    e := Create(1, 2, T_FILE);
  }

  // ---------------------------------------------------------------- the loops

  /** isdirempty. */
  method Isdirempty(es: seq<int>) returns (r: bool)
    ensures r <==> DirEmpty(es)
  {
    var k := 2;
    while k < |es|
      invariant 2 <= k && forall j {:trigger es[j]} :: 2 <= j < k && j < |es| ==> es[j] == 0
    {
      if es[k] != 0 {
        return false;
      }
      k := k + 1;
    }
    return true;
  }

  /** dirlink once the name is known to be absent: the entries after it. */
  method Dirlink(es: seq<int>, i: int) returns (r: seq<int>)
    ensures r == WithEntry(es, i)
  {
    var k := 0;
    while k < |es|
      invariant 0 <= k <= |es| && forall j {:trigger es[j]} :: 0 <= j < k ==> es[j] != 0
    {
      if es[k] == 0 {
        break;
      }
      k := k + 1;
    }
    assert k == FirstEmpty(es);
    r := if k < |es| then es[k := i] else es + [i];
  }

  /** ialloc: the lowest free inode; none is a panic. */
  method Ialloc(node: map<int, Node>, ninodes: int) returns (i: int)
    requires forall j {:trigger j in node} :: 1 <= j < ninodes ==> j in node
    ensures i == 0 ==> forall j {:trigger node[j]} :: 1 <= j < ninodes ==> node[j].kind != 0
    ensures i != 0 ==> 1 <= i < ninodes && node[i].kind == 0 && forall j {:trigger node[j]} :: 1 <= j < i ==>
      node[j].kind != 0
  {
    i := 1;
    while i < ninodes
      invariant 1 <= i && forall j {:trigger node[j]} :: 1 <= j < i && j < ninodes ==> node[j].kind != 0
    {
      if node[i].kind == 0 {
        return;
      }
      i := i + 1;
    }
    return 0;
  }
}
