/** Which inodes come free again, and which never do (sysfile.c, fs.c). */
module LinkLeaks {
  import opened LinkSpec
  import opened LinkProofs
  import opened LinkRuns
  import opened LinkExact

  // ---------------------------------------------------------------- no leak but by lost names

  /** An inode in use without links is still referred to, and cached with its contents: the last iput will free it. */
  ghost predicate Reclaimable(s: State, i: int) {
    i in s.node && s.node[i].kind != 0 && s.node[i].nlink == 0 ==> s.refs[i] > 0 && i in s.valid
  }

  lemma DecReclaimable(s: State, p: int, j: int)
    requires RefsOk(s) && p in s.tasks && s.tasks[p].i in s.node && Reclaimable(s, j)
    ensures Reclaimable(Linked(s, s.tasks[p].i, -1).(tasks := s.tasks - {p}), j)
  {
    hide RefsOk, Promises;
    InPromises(s.tasks, p);
    PromisesHeld(s, s.tasks[p].i, p);
  }

  lemma LinkIncReclaimable(s: State, p: int, i: int, j: int)
    requires Inv(s) && Enabled(s, LinkInc(p, i)) && Reclaimable(s, j)
    ensures Reclaimable(Step(s, LinkInc(p, i)), j)
  {
    hide DirsOk, NoneDangle, RefsOk, Namers, Promises;
    assert CountOk(s, i);
  }

  lemma StepReclaimable(s: State, e: Event, j: int)
    requires Inv(s) && Enabled(s, e) && Clean(s, e) && Reclaimable(s, j)
    ensures Reclaimable(Step(s, e), j)
  {
    hide CountsOk, DirsOk, NoneDangle, Namers, WithEntry, Promises, RefsOk, DirEmpty;
    match e {
      case UnlinkDec(p) => DecReclaimable(s, p, j);
      case LinkFail(p) => DecReclaimable(s, p, j);
      case LinkInc(p, i) => LinkIncReclaimable(s, p, i, j);
      case FreeEnd(i) => DyingFree(s, i);
      case Put(i) =>
      case Create(d, i, kind) =>
      case CreateFail(d, i, kind) =>
      case _ => OtherReclaimable(s, e, j);
    }
  }

  lemma OtherReclaimable(s: State, e: Event, j: int)
    requires Enabled(s, e) && Reclaimable(s, j)
    requires e.GetRoot? || e.Dup? || e.Lookup? || e.Load? || e.LinkAdd? || e.UnlinkClear?
    ensures Reclaimable(Step(s, e), j)
  {
    hide WithEntry, DirEmpty, Promises, Namers;
  }

  lemma DyingFree(s: State, i: int)
    requires RefsOk(s) && i in s.dying
    ensures i in s.node && s.node[i].kind == 0
  {
  }

  lemma PromisesHeld(s: State, i: int, p: int)
    requires RefsOk(s) && p in Promises(s.tasks, i)
    ensures s.refs[i] > 0
  {
    assert |Promises(s.tasks, i)| > 0;
  }

  lemma {:induction false} RunReclaimable(s: State, es: seq<Event>, j: int)
    requires Inv(s) && CleanRun(s, es) && Reclaimable(s, j)
    ensures Reclaimable(Final(s, es), j)
    decreases |es|
  {
    hide Inv, Reclaimable, Enabled, Step, Clean;
    if es != [] {
      StepKeeps(s, es[0]);
      StepReclaimable(s, es[0], j);
      RunReclaimable(Step(s, es[0]), es[1..], j);
    }
  }

  /** In every run an inode without links and references is free. */
  lemma NoneForgotten(files: nat, ninodes: int, es: seq<Event>, j: int)
    requires files + 2 <= ninodes && CleanRun(Image(files, ninodes), es)
    ensures var s := Final(Image(files, ninodes), es);
      j in s.node && s.node[j].nlink == 0 && s.refs[j] == 0 ==> s.node[j].kind == 0
  {
    ImageOk(files, ninodes);
    RunReclaimable(Image(files, ninodes), es, j);
  }

  /** An inode that nobody names and nobody uses is leaked exactly when names of it were lost with a freed directory. */
  lemma LeaksExactly(files: nat, ninodes: int, es: seq<Event>, j: int)
    requires files + 2 <= ninodes && CleanRun(Image(files, ninodes), es) && j != ROOT
    ensures var s := Final(Image(files, ninodes), es);
      j in s.node && Namers(s.dirs, j) == {} && s.refs[j] == 0 ==>
        (s.node[j].kind != 0 <==> Lost(Image(files, ninodes), es, j) > 0)
  {
    hide Namers, Promises, Lost;
    ImageOk(files, ninodes);
    ImageExact(files, ninodes, j);
    RunKeeps(Image(files, ninodes), es);
    RunCounts(Image(files, ninodes), es, j, 0);
    NoneForgotten(files, ninodes, es, j);
    var s := Final(Image(files, ninodes), es);
    assert |Promises(s.tasks, j)| <= s.refs[j];
  }

  /** An inode that has lost a name keeps a link for good: no later iput frees it, whatever happens to its names. */
  lemma NeverFreed(s: State, es: seq<Event>, j: int)
    requires Inv(s) && CleanRun(s, es) && j in s.node && s.node[j].kind != 0 && Surplus(s, j) > 0
    ensures var t := Final(s, es);
      j in t.node && t.node[j].kind != 0 && t.node[j].nlink > 0 && Surplus(t, j) >= Surplus(s, j) && !Frees(t, j)
  {
    hide Namers, Promises, Inv;
    RunCounts(s, es, j, Surplus(s, j));
    RunSameInodes(s, es, j);
  }

  lemma {:induction false} RunSameInodes(s: State, es: seq<Event>, j: int)
    requires CleanRun(s, es)
    ensures j in Final(s, es).node <==> j in s.node
    decreases |es|
  {
    hide Enabled, Step, Clean;
    if es != [] {
      SameInodes(s, es[0]);
      RunSameInodes(Step(s, es[0]), es[1..], j);
    }
  }

  // ---------------------------------------------------------------- a leaked directory

  /** A directory within a directory; then the inner one removed and freed; then the outer one removed and not freed. */
  function Nested(): State {
    State(map[1 := Node(T_DIR, 2), 2 := Node(T_DIR, 2), 3 := Node(T_DIR, 1)],
      map[1 := [1, 1, 2], 2 := [2, 1, 3], 3 := [3, 2]],
          multiset{1, 2, 3}, {1, 2, 3}, {}, map[])
  }

  function InnerCut(): State {
    Nested().(dirs := map[1 := [1, 1, 2], 2 := [2, 1, 0], 3 := [3, 2]], refs := multiset{1, 2, 3, 3},
      tasks := map[7 := Unlinking(3)])
  }

  function InnerRemoved(): State {
    InnerCut().(node := map[1 := Node(T_DIR, 2), 2 := Node(T_DIR, 2), 3 := Node(T_DIR, 0)], tasks := map[])
  }

  function InnerFreed(): State {
    State(map[1 := Node(T_DIR, 2), 2 := Node(T_DIR, 2), 3 := Node(0, 0)], map[1 := [1, 1, 2], 2 := [2, 1, 0]],
          multiset{1, 2, 3}, {1, 2, 3}, {3}, map[])
  }

  function OuterCut(): State {
    State(map[1 := Node(T_DIR, 2), 2 := Node(T_DIR, 2), 3 := Node(0, 0)], map[1 := [1, 1, 0], 2 := [2, 1, 0]],
          multiset{1, 2, 2}, {1, 2, 3}, {}, map[7 := Unlinking(2)])
  }

  function OuterRemoved(): State {
    OuterCut().(node := map[1 := Node(T_DIR, 2), 2 := Node(T_DIR, 1), 3 := Node(0, 0)], tasks := map[])
  }

  lemma ToNested()
    ensures Enabled(Opened(), Create(2, 3, T_DIR)) && Clean(Opened(), Create(2, 3, T_DIR))
    ensures Step(Opened(), Create(2, 3, T_DIR)) == Nested()
  {
    assert WithEntry([2, 1], 3) == [2, 1, 3];
    DotEntries(3, 2);
  }

  lemma ToInnerCut()
    ensures Enabled(Nested(), UnlinkClear(7, 2, 2)) && Step(Nested(), UnlinkClear(7, 2, 2)) == InnerCut()
  {
    assert [2, 1, 3][2 := 0] == [2, 1, 0];
  }

  lemma ToInnerRemoved()
    ensures Enabled(InnerCut(), UnlinkDec(7)) && Step(InnerCut(), UnlinkDec(7)) == InnerRemoved()
  {
  }

  lemma ToInnerLeft()
    ensures Enabled(InnerRemoved(), Put(3))
      && Step(InnerRemoved(), Put(3)) == InnerRemoved().(refs := multiset{1, 2, 3})
  {
    assert Promises(map[], 3) == {};
  }

  lemma ToInnerFreed()
    ensures var s := InnerRemoved().(refs := multiset{1, 2, 3});
      Enabled(s, Put(3)) && Step(s, Put(3)) == InnerFreed() && Loses(s, Put(3), 2)
  {
    var s := InnerRemoved().(refs := multiset{1, 2, 3});
    assert Promises(map[], 3) == {};
    assert s.dirs - {3} == InnerFreed().dirs;
    assert Names(s.dirs, 3, 1, 2);
  }

  lemma ToInnerGone()
    ensures Enabled(InnerFreed(), FreeEnd(3))
      && Step(InnerFreed(), FreeEnd(3)) == InnerFreed().(dying := {}, refs := multiset{1, 2})
  {
  }

  lemma ToOuterCut()
    ensures var s := InnerFreed().(dying := {}, refs := multiset{1, 2});
      Enabled(s, UnlinkClear(7, 1, 2)) && Step(s, UnlinkClear(7, 1, 2)) == OuterCut()
  {
    assert [1, 1, 2][2 := 0] == [1, 1, 0];
  }

  lemma ToOuterRemoved()
    ensures Enabled(OuterCut(), UnlinkDec(7)) && Step(OuterCut(), UnlinkDec(7)) == OuterRemoved()
  {
  }

  lemma ToOuterLeft()
    ensures Enabled(OuterRemoved(), Put(2)) && Step(OuterRemoved(), Put(2)) == OuterRemoved().(refs := multiset{1, 2})
  {
    assert Promises(map[], 2) == {};
  }

  lemma ToLeaked()
    ensures var s := OuterRemoved().(refs := multiset{1, 2});
      Enabled(s, Put(2)) && Step(s, Put(2)) == OuterRemoved().(refs := multiset{1})
  {
    assert Promises(map[], 2) == {};
  }

  lemma LeakedAt()
    ensures var s := OuterRemoved().(refs := multiset{1});
      Namers(s.dirs, 2) == {} && s.refs[2] == 0 && 2 in s.node && s.node[2] == Node(T_DIR, 1)
  {
    var s := OuterRemoved().(refs := multiset{1});
    assert forall d, k {:trigger Names(s.dirs, d, k, 2)} :: !Names(s.dirs, d, k, 2);
  }

  lemma InnerPart() returns (es: seq<Event>)
    ensures CleanRun(Image(0, 4), es) && Final(Image(0, 4), es) == InnerFreed().(dying := {}, refs := multiset{1, 2})
  {
    hide Image, CleanRun, Final, Step, Enabled, Opened, Nested, InnerCut, InnerRemoved, InnerFreed, Loses;
    var s0 := Image(0, 4);
    es := OpenedFrom();
    ToNested();
    Extend(s0, es, Create(2, 3, T_DIR));
    es := es + [Create(2, 3, T_DIR)];
    ToInnerCut();
    Extend(s0, es, UnlinkClear(7, 2, 2));
    es := es + [UnlinkClear(7, 2, 2)];
    ToInnerRemoved();
    Extend(s0, es, UnlinkDec(7));
    es := es + [UnlinkDec(7)];
    ToInnerLeft();
    Extend(s0, es, Put(3));
    es := es + [Put(3)];
    ToInnerFreed();
    Extend(s0, es, Put(3));
    es := es + [Put(3)];
    ToInnerGone();
    Extend(s0, es, FreeEnd(3));
    es := es + [FreeEnd(3)];
  }

  /** A directory that once held another one is removed: nobody names it or refers to it, and it is not free. */
  lemma RemovedParentLeaks() returns (es: seq<Event>)
    ensures CleanRun(Image(0, 4), es)
    ensures var s := Final(Image(0, 4), es);
      Namers(s.dirs, 2) == {} && s.refs[2] == 0 && 2 in s.node && s.node[2] == Node(T_DIR, 1)
  {
    hide Image, CleanRun, Final, Step, Enabled, InnerFreed, OuterCut, OuterRemoved, Namers;
    var s0 := Image(0, 4);
    es := InnerPart();
    ToOuterCut();
    Extend(s0, es, UnlinkClear(7, 1, 2));
    es := es + [UnlinkClear(7, 1, 2)];
    ToOuterRemoved();
    Extend(s0, es, UnlinkDec(7));
    es := es + [UnlinkDec(7)];
    ToOuterLeft();
    Extend(s0, es, Put(2));
    es := es + [Put(2)];
    ToLeaked();
    Extend(s0, es, Put(2));
    es := es + [Put(2)];
    LeakedAt();
  }
}
