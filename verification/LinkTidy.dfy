/**
 What unlink's check for an empty directory is for: no name but a ".." is lost with a removed directory
 (sysfile.c).
 */
module LinkTidy {
  import opened LinkSpec
  import opened LinkProofs
  import opened LinkRuns
  import opened LinkExact
  import opened LinkLeaks

  /** Directory d has a name of its own, which is not another directory's ".."; the root needs none. */
  ghost predicate HasName(dirs: map<int, seq<int>>, d: int) {
    d == ROOT || exists a, k {:trigger Names(dirs, a, k, d)} :: 2 <= k && Names(dirs, a, k, d)
  }

  /** A directory without a name has nothing but its dots. */
  ghost predicate OrphansEmpty(dirs: map<int, seq<int>>) {
    forall d {:trigger dirs[d]} :: d in dirs && !HasName(dirs, d) ==> DirEmpty(dirs[d])
  }

  /** Every directory has its dots, and its parent is a directory. */
  ghost predicate ParentsOk(dirs: map<int, seq<int>>) {
    forall d {:trigger dirs[d]} :: d in dirs ==>
      2 <= |dirs[d]| && dirs[d][0] != 0 && dirs[d][1] != 0 && dirs[d][1] in dirs
  }

  ghost predicate Tidy(dirs: map<int, seq<int>>) {
    OrphansEmpty(dirs) && ParentsOk(dirs)
  }

  /** The event enters nothing into a directory whose own name is gone. */
  ghost predicate EntersNamed(s: State, e: Event) {
    (e.LinkAdd? || e.Create?) ==> HasName(s.dirs, e.d)
  }

  // ---------------------------------------------------------------- directories

  lemma EntryNames(dirs: map<int, seq<int>>, d: int, i: int, c: int)
    requires d in dirs && c != 0 && HasName(dirs, c)
    ensures HasName(dirs[d := WithEntry(dirs[d], i)], c)
  {
    if c != ROOT {
      var a, k :| 2 <= k && Names(dirs, a, k, c);
      assert Names(dirs[d := WithEntry(dirs[d], i)], a, k, c);
    }
  }

  lemma EntryTidy(dirs: map<int, seq<int>>, d: int, i: int)
    requires Tidy(dirs) && 0 !in dirs && d in dirs && HasName(dirs, d)
    ensures Tidy(dirs[d := WithEntry(dirs[d], i)])
  {
    hide HasName;
    var more := dirs[d := WithEntry(dirs[d], i)];
    forall c | c in more && !HasName(more, c)
      ensures DirEmpty(more[c])
    {
      if HasName(dirs, c) {
        EntryNames(dirs, d, i, c);
      }
    }
  }

  lemma DotNames(dirs: map<int, seq<int>>, i: int, d: int, c: int)
    requires i !in dirs && HasName(dirs, c)
    ensures HasName(dirs[i := [i, d]], c)
  {
    if c != ROOT {
      var a, k :| 2 <= k && Names(dirs, a, k, c);
      assert Names(dirs[i := [i, d]], a, k, c);
    }
  }

  lemma DotTidy(dirs: map<int, seq<int>>, i: int, d: int)
    requires Tidy(dirs) && i !in dirs && i != 0 && d != 0 && d in dirs
    ensures Tidy(dirs[i := [i, d]])
  {
    hide HasName;
    var more := dirs[i := [i, d]];
    forall c | c in more && !HasName(more, c)
      ensures DirEmpty(more[c])
    {
      if HasName(dirs, c) {
        DotNames(dirs, i, d, c);
      }
    }
  }

  lemma CutNames(dirs: map<int, seq<int>>, d: int, k: int, c: int)
    requires d in dirs && 2 <= k < |dirs[d]| && c != dirs[d][k] && HasName(dirs, c)
    ensures HasName(dirs[d := dirs[d][k := 0]], c)
  {
    if c != ROOT {
      var a, m :| 2 <= m && Names(dirs, a, m, c);
      assert Names(dirs[d := dirs[d][k := 0]], a, m, c);
    }
  }

  /** unlink takes the name of a file or of an empty directory. */
  lemma CutTidy(dirs: map<int, seq<int>>, d: int, k: int)
    requires Tidy(dirs) && d in dirs && 2 <= k < |dirs[d]|
    requires dirs[d][k] in dirs ==> DirEmpty(dirs[dirs[d][k]])
    ensures Tidy(dirs[d := dirs[d][k := 0]])
  {
    hide HasName;
    var less := dirs[d := dirs[d][k := 0]];
    forall c | c in less && !HasName(less, c)
      ensures DirEmpty(less[c])
    {
      if c != dirs[d][k] && HasName(dirs, c) {
        CutNames(dirs, d, k, c);
      }
    }
  }

  predicate Nameless(dirs: map<int, seq<int>>, i: int) {
    forall d {:trigger dirs[d]} :: d in dirs && d != i ==> i !in dirs[d]
  }

  lemma FreeNames(dirs: map<int, seq<int>>, i: int, c: int)
    requires i in dirs ==> DirEmpty(dirs[i])
    requires c != 0 && HasName(dirs, c)
    ensures HasName(dirs - {i}, c)
  {
    if c != ROOT {
      var a, k :| 2 <= k && Names(dirs, a, k, c);
      assert Names(dirs - {i}, a, k, c);
    }
  }

  lemma NoName(dirs: map<int, seq<int>>, i: int)
    requires Nameless(dirs, i) && i != ROOT
    ensures !HasName(dirs, i)
  {
  }

  /** A directory that nobody names goes away: it had nothing but its dots, so no other one loses its name. */
  lemma FreeTidy(dirs: map<int, seq<int>>, i: int)
    requires Tidy(dirs) && 0 !in dirs && Nameless(dirs, i) && i != ROOT
    ensures Tidy(dirs - {i})
  {
    hide HasName;
    NoName(dirs, i);
    var less := dirs - {i};
    forall c | c in less && !HasName(less, c)
      ensures DirEmpty(less[c])
    {
      if HasName(dirs, c) {
        FreeNames(dirs, i, c);
      }
    }
    forall c | c in less
      ensures less[c][1] in less
    {
      assert dirs[c][1] in dirs[c];
    }
  }

  // ---------------------------------------------------------------- one step

  /** The directories of an inode that is about to be freed: nobody names it. */
  lemma FreedNameless(s: State, i: int)
    requires Inv(s) && i in s.node && s.node[i].nlink == 0
    ensures Nameless(s.dirs, i) && i != ROOT && 0 !in s.dirs
  {
    hide NoneDangle, RefsOk, Promises;
    assert CountOk(s, i);
    forall d | d in s.dirs && d != i
      ensures i !in s.dirs[d]
    {
      forall k | 0 <= k < |s.dirs[d]|
        ensures s.dirs[d][k] != i
      {
        Unnamed(s, i, d, k);
      }
    }
  }

  lemma OtherTidy(s: State, e: Event)
    requires Enabled(s, e) && !e.Put? && !e.LinkAdd? && !e.UnlinkClear? && !e.Create?
    ensures Step(s, e).dirs == s.dirs
  {
  }

  lemma FreshInode(s: State, d: int, i: int, kind: int)
    requires Inv(s) && Enabled(s, Create(d, i, kind)) && i !in s.refs
    ensures i !in s.dying && i != d && i !in s.dirs && d != 0 && 0 !in s.dirs && d in s.dirs && i != 0
  {
    hide NoneDangle, CountsOk, Namers, Promises, Dotted;
    assert s.refs[i] == 0;
  }

  lemma CreateTidy(s: State, d: int, i: int, kind: int)
    requires Inv(s) && Tidy(s.dirs) && Enabled(s, Create(d, i, kind)) && HasName(s.dirs, d) && i !in s.refs
    ensures Tidy(Step(s, Create(d, i, kind)).dirs)
  {
    hide Inv, Tidy, HasName, FirstEmpty, WithEntry;
    FreshInode(s, d, i, kind);
    EntryTidy(s.dirs, d, i);
    if kind == T_DIR {
      DotEntries(i, d);
      DotTidy(s.dirs[d := WithEntry(s.dirs[d], i)], i, d);
    }
  }

  /** Every step that enters nothing into a directory whose name is gone leaves those without a name empty. */
  lemma TidyStep(s: State, e: Event)
    requires Inv(s) && Enabled(s, e) && Clean(s, e) && Tidy(s.dirs) && EntersNamed(s, e)
    ensures Tidy(Step(s, e).dirs)
  {
    assert 0 !in s.dirs;
    hide Inv, Tidy, HasName, Promises, FirstEmpty, WithEntry;
    match e {
      case Put(i) =>
        if Frees(s, i) {
          FreedNameless(s, i);
          FreeTidy(s.dirs, i);
        }
      case LinkAdd(p, d) => EntryTidy(s.dirs, d, s.tasks[p].i);
      case UnlinkClear(p, d, k) => CutTidy(s.dirs, d, k);
      case Create(d, i, kind) => CreateTidy(s, d, i, kind);
      case _ => OtherTidy(s, e);
    }
  }

  // ---------------------------------------------------------------- what is lost

  /** The event frees a directory whose ".." names j. */
  ghost predicate FreesChild(s: State, e: Event, j: int) {
    && e.Put? && e.i in s.node && Frees(s, e.i) && e.i != j
    && e.i in s.dirs && 2 <= |s.dirs[e.i]| && s.dirs[e.i][1] == j
  }

  lemma DotsOnly(dirs: map<int, seq<int>>, d: int, j: int, k: int)
    requires d in dirs && DirEmpty(dirs[d]) && 2 <= |dirs[d]| && dirs[d][0] == d && j != 0 && j != d
    ensures Names(dirs, d, k, j) <==> k == 1 && dirs[d][1] == j
  {
  }

  lemma DotsLost(dirs: map<int, seq<int>>, d: int, j: int)
    requires d in dirs && DirEmpty(dirs[d]) && 2 <= |dirs[d]| && dirs[d][0] == d && j != 0 && j != d
    ensures NamersIn(dirs, d, j) == if dirs[d][1] == j then {(d, 1)} else {}
  {
    forall x: (int, int)
      ensures x in NamersIn(dirs, d, j) <==> x == (d, 1) && dirs[d][1] == j
    {
      DotsOnly(dirs, d, j, x.1);
      assert x in NamersIn(dirs, d, j) <==> Names(dirs, x.0, x.1, j) && x.0 == d;
    }
  }

  /** In a tidy state a freed directory takes one name with it, its "..", and nothing else takes any. */
  lemma LosesDotDot(s: State, e: Event, j: int)
    requires Inv(s) && Enabled(s, e) && Tidy(s.dirs) && j in s.node
    ensures Losing(s, e, j) == if FreesChild(s, e, j) then 1 else 0
  {
    hide Namers, Promises, CountsOk, NoneDangle, RefsOk, HasName, NamersIn;
    if e.Put? && e.i in s.node && Frees(s, e.i) && e.i != j {
      FreedNameless(s, e.i);
      NoName(s.dirs, e.i);
      if e.i in s.dirs {
        DotsLost(s.dirs, e.i, j);
      } else {
        NoneIn(s.dirs, e.i, j);
      }
    }
  }

  lemma NoneIn(dirs: map<int, seq<int>>, d: int, j: int)
    requires d !in dirs
    ensures NamersIn(dirs, d, j) == {}
  {
  }

  // ---------------------------------------------------------------- runs

  /** Throughout the run nothing is entered into a directory whose own name is gone. */
  ghost predicate NamedRun(s: State, es: seq<Event>)
    requires CleanRun(s, es)
    decreases |es|
  {
    es == [] || (EntersNamed(s, es[0]) && NamedRun(Step(s, es[0]), es[1..]))
  }

  /** How many directories within j a run removes and frees. */
  ghost function FreedChildren(s: State, es: seq<Event>, j: int): nat
    requires CleanRun(s, es)
    decreases |es|
  {
    if es == [] then 0 else (if FreesChild(s, es[0], j) then 1 else 0) + FreedChildren(Step(s, es[0]), es[1..], j)
  }

  lemma {:induction false} LostChildren(s: State, es: seq<Event>, j: int)
    requires Inv(s) && CleanRun(s, es) && NamedRun(s, es) && Tidy(s.dirs) && j in s.node
    ensures Lost(s, es, j) == FreedChildren(s, es, j)
    decreases |es|
  {
    hide Inv, Tidy, Losing, FreesChild, Enabled, Step, Clean, EntersNamed;
    if es != [] {
      StepKeeps(s, es[0]);
      LosesDotDot(s, es[0], j);
      TidyStep(s, es[0]);
      SameInodes(s, es[0]);
      LostChildren(Step(s, es[0]), es[1..], j);
    }
  }

  lemma ImageTidy(files: nat, ninodes: int)
    requires files + 2 <= ninodes
    ensures Tidy(Image(files, ninodes).dirs)
  {
  }

  /**
   In every run from a file system of mkfs that enters nothing into a directory whose own name is gone, a link count
   exceeds the names by exactly the number of directories within that were removed and freed.
   */
  lemma DriftsExactly(files: nat, ninodes: int, es: seq<Event>, j: int)
    requires files + 2 <= ninodes && CleanRun(Image(files, ninodes), es) && NamedRun(Image(files, ninodes), es)
    ensures var s := Final(Image(files, ninodes), es);
      j in s.node && s.node[j].kind != 0 ==> Surplus(s, j) == FreedChildren(Image(files, ninodes), es, j)
  {
    hide Namers, Promises, Lost, FreedChildren, NamedRun, Tidy;
    ImageOk(files, ninodes);
    ImageExact(files, ninodes, j);
    ImageTidy(files, ninodes);
    RunCounts(Image(files, ninodes), es, j, 0);
    RunSameInodes(Image(files, ninodes), es, j);
    if j in Image(files, ninodes).node {
      LostChildren(Image(files, ninodes), es, j);
    }
  }

  /** In every such run an inode that nobody names and nobody uses is leaked exactly if a directory within was freed. */
  lemma LeaksAreParents(files: nat, ninodes: int, es: seq<Event>, j: int)
    requires files + 2 <= ninodes && CleanRun(Image(files, ninodes), es) && NamedRun(Image(files, ninodes), es)
    requires j != ROOT
    ensures var s := Final(Image(files, ninodes), es);
      j in s.node && Namers(s.dirs, j) == {} && s.refs[j] == 0 ==>
        (s.node[j].kind != 0 <==> FreedChildren(Image(files, ninodes), es, j) > 0)
  {
    hide Namers, Lost, FreedChildren, NamedRun, Tidy;
    ImageOk(files, ninodes);
    ImageTidy(files, ninodes);
    LeaksExactly(files, ninodes, es, j);
    RunSameInodes(Image(files, ninodes), es, j);
    if j in Image(files, ninodes).node {
      LostChildren(Image(files, ninodes), es, j);
    }
  }

  // ---------------------------------------------------------------- files

  /** A file has exactly as many links as names. */
  ghost predicate FileExact(s: State, j: int) {
    j in s.node && s.node[j].kind != T_DIR ==> Counted(s, j, 0)
  }

  lemma KindStays(s: State, e: Event, j: int)
    requires Inv(s) && Enabled(s, e) && j in s.node && j in Step(s, e).node && s.node[j].kind == T_DIR
    ensures Step(s, e).node[j].kind == T_DIR || Step(s, e).node[j].kind == 0
  {
    hide NoneDangle, CountsOk, Promises, WithEntry;
  }

  lemma FreshCounted(s: State, j: int)
    requires j in s.node && s.node[j].kind == 0
    ensures Counted(s, j, 0)
  {
  }

  /** The parent in a ".." is a directory, so a file loses no name. */
  lemma FileLosesNone(s: State, e: Event, j: int)
    requires Inv(s) && Enabled(s, e) && Tidy(s.dirs) && j in s.node && s.node[j].kind != T_DIR
    ensures Losing(s, e, j) == 0
  {
    LosesDotDot(s, e, j);
    hide OrphansEmpty, NoneDangle, CountsOk, RefsOk, Losing;
  }

  lemma FileStep(s: State, e: Event, j: int)
    requires Inv(s) && Enabled(s, e) && Clean(s, e) && Tidy(s.dirs) && FileExact(s, j)
    ensures FileExact(Step(s, e), j)
  {
    SameInodes(s, e);
    hide Inv, Enabled, Clean, Step, Tidy, Losing;
    if j in s.node {
      if s.node[j].kind == T_DIR {
        KindStays(s, e, j);
        if Step(s, e).node[j].kind == 0 {
          FreshCounted(Step(s, e), j);
        }
      } else {
        FileLosesNone(s, e, j);
        StepCounts(s, e, j, 0);
      }
    }
  }

  lemma {:induction false} FileRun(s: State, es: seq<Event>, j: int)
    requires Inv(s) && CleanRun(s, es) && NamedRun(s, es) && Tidy(s.dirs) && FileExact(s, j)
    ensures FileExact(Final(s, es), j)
    decreases |es|
  {
    hide Inv, Tidy, FileExact, Enabled, Step, Clean, EntersNamed;
    if es != [] {
      StepKeeps(s, es[0]);
      TidyStep(s, es[0]);
      FileStep(s, es[0], j);
      FileRun(Step(s, es[0]), es[1..], j);
    }
  }

  /** In every such run the link count of a file is the number of its names and of calls under way. */
  lemma FilesExact(files: nat, ninodes: int, es: seq<Event>, j: int)
    requires files + 2 <= ninodes && CleanRun(Image(files, ninodes), es) && NamedRun(Image(files, ninodes), es)
    ensures var s := Final(Image(files, ninodes), es);
      j in s.node && s.node[j].kind != 0 && s.node[j].kind != T_DIR ==> CountExact(s, j)
  {
    hide Namers, Promises, NamedRun, Tidy;
    ImageOk(files, ninodes);
    ImageExact(files, ninodes, j);
    ImageTidy(files, ninodes);
    FileRun(Image(files, ninodes), es, j);
  }
}
