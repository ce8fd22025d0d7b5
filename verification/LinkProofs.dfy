/** Every section of link, unlink, create and iput keeps the link counts honest (sysfile.c, fs.c). */
module LinkProofs {
  import opened LinkSpec

  // ---------------------------------------------------------------- counting

  lemma {:induction false} SubsetCard<T>(a: set<T>, b: set<T>)
    requires a <= b
    ensures |a| <= |b|
    decreases |a|
  {
    if a != {} {
      var x :| x in a;
      SubsetCard(a - {x}, b - {x});
    }
  }

  /** es with entry k changed, or with one entry appended at k. */
  predicate ChangedAt(es: seq<int>, more: seq<int>, k: int) {
    0 <= k < |more| && |es| <= |more| && forall j {:trigger more[j]} :: 0 <= j < |more| && j != k ==>
      j < |es| && more[j] == es[j]
  }

  lemma NamersChange(dirs: map<int, seq<int>>, d: int, more: seq<int>, k: int, j: int)
    requires d in dirs && ChangedAt(dirs[d], more, k)
    ensures |Namers(dirs[d := more], j)| <= |Namers(dirs, j)| + (if more[k] == j then 1 else 0)
  {
    var now, before := Namers(dirs[d := more], j), Namers(dirs, j);
    var plus := if more[k] == j then before + {(d, k)} else before;
    forall x | x in now
      ensures x in plus
    {
      if x != (d, k) {
        assert Names(dirs, x.0, x.1, j);
      }
    }
    SubsetCard(now, plus);
  }

  lemma NamersClear(dirs: map<int, seq<int>>, d: int, k: int)
    requires d in dirs && 0 <= k < |dirs[d]| && dirs[d][k] != 0 && dirs[d][k] != d
    ensures var i := dirs[d][k]; |Namers(dirs[d := dirs[d][k := 0]], i)| <= |Namers(dirs, i)| - 1
  {
    var i := dirs[d][k];
    var now, before := Namers(dirs[d := dirs[d][k := 0]], i), Namers(dirs, i);
    assert Names(dirs, d, k, i);
    assert (d, k) in before;
    forall x | x in now
      ensures x in before - {(d, k)}
    {
      assert Names(dirs, x.0, x.1, i);
    }
    SubsetCard(now, before - {(d, k)});
  }

  lemma NamersFree(dirs: map<int, seq<int>>, i: int, j: int)
    ensures |Namers(dirs - {i}, j)| <= |Namers(dirs, j)|
  {
    var now, before := Namers(dirs - {i}, j), Namers(dirs, j);
    forall x | x in now
      ensures x in before
    {
      assert Names(dirs, x.0, x.1, j);
    }
    SubsetCard(now, before);
  }

  /** A new directory names itself, which does not count, and its parent. */
  lemma NamersNewDir(dirs: map<int, seq<int>>, i: int, d: int, j: int)
    requires i !in dirs && i != d
    ensures |Namers(dirs[i := [i, d]], j)| <= |Namers(dirs, j)| + (if j == d then 1 else 0)
  {
    var now, before := Namers(dirs[i := [i, d]], j), Namers(dirs, j);
    var plus := if j == d then before + {(i, 1)} else before;
    forall x | x in now
      ensures x in plus
    {
      if x.0 != i {
        assert Names(dirs, x.0, x.1, j);
      } else {
        assert [i, d][x.1] == j;
      }
    }
    SubsetCard(now, plus);
  }

  /** An inode with no link is named by nobody else. */
  lemma Unnamed(s: State, i: int, d: int, k: int)
    requires CountsOk(s) && i in s.node && s.node[i].nlink == 0
    ensures Promises(s.tasks, i) == {} && !Names(s.dirs, d, k, i)
  {
    assert Names(s.dirs, d, k, i) ==> (d, k) in Namers(s.dirs, i);
    assert CountOk(s, i);
    assert |Promises(s.tasks, i)| == 0 && |Namers(s.dirs, i)| == 0;
  }

  /** A free inode is named by nobody at all. */
  lemma FreeUnnamed(s: State, i: int)
    requires NoneDangle(s) && i in s.node && s.node[i].kind == 0 && i != 0
    ensures Namers(s.dirs, i) == {}
  {
    assert forall d, k {:trigger Names(s.dirs, d, k, i)} :: !Names(s.dirs, d, k, i);
  }

  lemma PromisesMore(tasks: map<int, Task>, p: int, t: Task, j: int)
    requires p !in tasks
    ensures |Promises(tasks[p := t], j)| == |Promises(tasks, j)| + (if t.i == j then 1 else 0)
  {
    if t.i == j {
      assert Promises(tasks[p := t], j) == Promises(tasks, j) + {p};
    } else {
      assert Promises(tasks[p := t], j) == Promises(tasks, j);
    }
  }

  lemma PromisesLess(tasks: map<int, Task>, p: int, j: int)
    requires p in tasks
    ensures |Promises(tasks - {p}, j)| == |Promises(tasks, j)| - (if tasks[p].i == j then 1 else 0)
  {
    assert p in Promises(tasks, j) <==> tasks[p].i == j;
    assert Promises(tasks - {p}, j) == Promises(tasks, j) - {p};
  }

  // ---------------------------------------------------------------- references

  /** Nothing but references and the read marks changed. */
  lemma SameCounts(s: State, t: State)
    requires CountsOk(s) && t.node == s.node && t.dirs == s.dirs && t.tasks == s.tasks
    ensures CountsOk(t)
  {
    forall i
      ensures CountOk(t, i)
    {
      assert CountOk(s, i);
    }
  }

  lemma GotKeeps(s: State, i: int)
    requires Inv(s) && i !in s.dying && i in s.node && s.node[i].kind != 0
    ensures Inv(Got(s, i))
  {
    hide CountsOk;
    SameCounts(s, Got(s, i));
  }

  lemma ValidKeeps(s: State, v: set<int>)
    requires Inv(s)
    ensures Inv(s.(valid := v))
  {
    hide CountsOk;
    SameCounts(s, s.(valid := v));
  }

  lemma PutKeeps(s: State, i: int)
    requires Inv(s) && Enabled(s, Put(i))
    ensures Inv(Step(s, Put(i)))
  {
    if Frees(s, i) {
      FreeKeeps(s, i);
    } else {
      hide CountsOk;
      SameCounts(s, Step(s, Put(i)));
    }
  }

  /** iput frees only an inode that no other directory names, and never the root. */
  lemma FreesUnnamed(s: State, i: int)
    requires Inv(s) && i in s.node && Frees(s, i)
    ensures i != ROOT && Promises(s.tasks, i) == {}
    ensures forall d, k {:trigger s.dirs[d][k]} :: d in s.dirs && 0 <= k < |s.dirs[d]| && s.dirs[d][k] == i ==> d == i
  {
    hide Promises, Namers;
    assert CountOk(s, i);
    Unnamed(s, i, 0, 0);
    forall d, k {:trigger s.dirs[d][k]} | d in s.dirs && 0 <= k < |s.dirs[d]| && s.dirs[d][k] == i
      ensures d == i
    {
      Unnamed(s, i, d, k);
    }
  }

  lemma FreeKeeps(s: State, i: int)
    requires Inv(s) && Enabled(s, Put(i)) && Frees(s, i)
    ensures Inv(Step(s, Put(i)))
  {
    hide Promises, Namers;
    FreesUnnamed(s, i);
    var t := Step(s, Put(i));
    forall j
      ensures CountOk(t, j)
    {
      assert CountOk(s, j);
      NamersFree(s.dirs, i, j);
    }
    forall p | p in t.tasks
      ensures t.tasks[p].i != i
    {
      InPromises(s.tasks, p);
    }
  }

  lemma InPromises(tasks: map<int, Task>, p: int)
    requires p in tasks
    ensures p in Promises(tasks, tasks[p].i)
  {
  }

  lemma FreeEndKeeps(s: State, i: int)
    requires Inv(s) && i in s.dying
    ensures Inv(Step(s, FreeEnd(i)))
  {
    var t := Step(s, FreeEnd(i));
    assert |Promises(s.tasks, i)| == 0 by {
      assert forall p {:trigger p in Promises(s.tasks, i)} :: p !in Promises(s.tasks, i);
      assert Promises(s.tasks, i) == {};
    }
    hide CountsOk, Promises;
    SameCounts(s, t);
  }

  // ---------------------------------------------------------------- link and unlink

  lemma LinkIncKeeps(s: State, p: int, i: int)
    requires Inv(s) && Enabled(s, LinkInc(p, i))
    ensures Inv(Step(s, LinkInc(p, i)))
  {
    hide Promises, Namers;
    var t := Step(s, LinkInc(p, i));
    forall j
      ensures CountOk(t, j) && |Promises(t.tasks, j)| <= t.refs[j]
    {
      assert CountOk(s, j);
      PromisesMore(s.tasks, p, Linking(i), j);
    }
  }

  /** LinkFail and UnlinkDec: the promise is settled by taking the link back. */
  lemma DecKeeps(s: State, p: int)
    requires Inv(s) && p in s.tasks && s.tasks[p].i in s.node
    ensures Inv(Linked(s, s.tasks[p].i, -1).(tasks := s.tasks - {p}))
  {
    hide Promises, Namers;
    var t := Linked(s, s.tasks[p].i, -1).(tasks := s.tasks - {p});
    forall j
      ensures CountOk(t, j) && |Promises(t.tasks, j)| <= t.refs[j]
    {
      assert CountOk(s, j);
      PromisesLess(s.tasks, p, j);
    }
  }

  /** dirlink keeps the dots where they are. */
  lemma EntryDotted(es: seq<int>, d: int, i: int)
    requires Dotted(es, d) && d != 0 && i != d
    ensures Dotted(WithEntry(es, i), d) && ChangedAt(es, WithEntry(es, i), FirstEmpty(es))
      && WithEntry(es, i)[FirstEmpty(es)] == i
  {
    assert es[0] != 0 && es[1] != 0;
    assert 2 <= FirstEmpty(es);
  }

  lemma LinkAddKeeps(s: State, p: int, d: int)
    requires Inv(s) && Enabled(s, LinkAdd(p, d))
    ensures Inv(Step(s, LinkAdd(p, d)))
  {
    hide Promises, Namers, Dotted, ChangedAt, WithEntry;
    var t, i := Step(s, LinkAdd(p, d)), s.tasks[p].i;
    assert d != 0 && i != d;
    EntryDotted(s.dirs[d], d, i);
    forall j
      ensures CountOk(t, j) && |Promises(t.tasks, j)| <= t.refs[j]
    {
      assert CountOk(s, j);
      PromisesLess(s.tasks, p, j);
      NamersChange(s.dirs, d, WithEntry(s.dirs[d], i), FirstEmpty(s.dirs[d]), j);
    }
    EntryTargets(s, d, i);
  }

  /** An entry for a live inode does not dangle. */
  lemma EntryTargets(s: State, d: int, i: int)
    requires NoneDangle(s) && d in s.dirs && i in s.node && s.node[i].kind != 0
    ensures NoneDangle(s.(dirs := s.dirs[d := WithEntry(s.dirs[d], i)]))
  {
  }

  lemma ClearTargets(s: State, d: int, k: int)
    requires NoneDangle(s) && d in s.dirs && 2 <= k < |s.dirs[d]| && Dotted(s.dirs[d], d) && d != 0
    ensures NoneDangle(s.(dirs := s.dirs[d := s.dirs[d][k := 0]])) && Dotted(s.dirs[d][k := 0], d)
      && ChangedAt(s.dirs[d], s.dirs[d][k := 0], k)
  {
  }

  lemma UnlinkClearKeeps(s: State, p: int, d: int, k: int)
    requires Inv(s) && Enabled(s, UnlinkClear(p, d, k))
    ensures Inv(Step(s, UnlinkClear(p, d, k)))
  {
    hide Promises, Namers, ChangedAt;
    var t, i := Step(s, UnlinkClear(p, d, k)), s.dirs[d][k];
    assert i in s.node && s.node[i].kind != 0 && i != d && d != 0;
    ClearTargets(s, d, k);
    NamersClear(s.dirs, d, k);
    hide Dotted;
    forall j
      ensures CountOk(t, j) && |Promises(t.tasks, j)| <= t.refs[j]
    {
      assert CountOk(s, j);
      PromisesMore(s.tasks, p, Unlinking(i), j);
      NamersChange(s.dirs, d, s.dirs[d][k := 0], k, j);
    }
  }

  // ---------------------------------------------------------------- create

  /** Entering a fresh inode into d: one more name for it, none for the others. */
  lemma CreatedFile(s: State, d: int, i: int, kind: int)
    requires Inv(s) && Enabled(s, Create(d, i, kind)) && i !in s.refs && kind != T_DIR
    ensures Inv(Created(s, d, i, kind))
  {
    var t := Created(s, d, i, kind);
    var entered := s.dirs[d := WithEntry(s.dirs[d], i)];
    assert s.refs[i] == 0;
    FreeUnnamed(s, i);
    hide Promises, Namers, Dotted, ChangedAt, WithEntry;
    assert d != 0 && i != d && i !in s.dirs && i != ROOT;
    EntryDotted(s.dirs[d], d, i);
    forall j
      ensures CountOk(t, j)
    {
      assert CountOk(s, j);
      NamersChange(s.dirs, d, WithEntry(s.dirs[d], i), FirstEmpty(s.dirs[d]), j);
      assert |Promises(s.tasks, i)| == 0;
    }
    EntryTargets(s.(node := t.node), d, i);
  }

  lemma DotEntries(i: int, d: int)
    requires i != 0
    ensures WithEntry(WithEntry([], i), d) == [i, d]
  {
    assert WithEntry([], i) == [i];
  }

  lemma CreatedDirCounts(s: State, d: int, i: int, j: int)
    requires Inv(s) && Enabled(s, Create(d, i, T_DIR)) && i !in s.refs
    ensures CountOk(Created(s, d, i, T_DIR), j)
  {
    var t := Created(s, d, i, T_DIR);
    var entered := s.dirs[d := WithEntry(s.dirs[d], i)];
    assert s.refs[i] == 0;
    FreeUnnamed(s, i);
    hide Promises, Namers, Dotted, ChangedAt, WithEntry;
    assert d != 0 && i != d && i !in s.dirs && i != ROOT;
    DotEntries(i, d);
    EntryDotted(s.dirs[d], d, i);
    assert CountOk(s, j);
    NamersChange(s.dirs, d, WithEntry(s.dirs[d], i), FirstEmpty(s.dirs[d]), j);
    NamersNewDir(entered, i, d, j);
    assert |Promises(s.tasks, i)| == 0;
  }

  lemma CreatedDir(s: State, d: int, i: int)
    requires Inv(s) && Enabled(s, Create(d, i, T_DIR)) && i !in s.refs
    ensures Inv(Created(s, d, i, T_DIR))
  {
    var t := Created(s, d, i, T_DIR);
    assert s.refs[i] == 0;
    forall j
      ensures CountOk(t, j)
    {
      CreatedDirCounts(s, d, i, j);
    }
    hide CountOk, Promises, ChangedAt, WithEntry;
    DotEntries(i, d);
    EntryDotted(s.dirs[d], d, i);
    EntryTargets(s.(node := t.node), d, i);
  }

  /** create keeps the invariant exactly when ialloc did not find an inode whose slot an iput still holds. */
  lemma CreateExactly(s: State, d: int, i: int, kind: int)
    requires Inv(s) && Enabled(s, Create(d, i, kind))
    ensures Inv(Step(s, Create(d, i, kind))) <==> i !in s.refs
  {
    if i in s.refs {
      assert s.refs[i] > 0;
      var t, k := Step(s, Create(d, i, kind)), FirstEmpty(s.dirs[d]);
      assert t.dirs[d][k] == i && t.node[i].kind == 0;
    } else if kind == T_DIR {
      assert s.refs[i] == 0;
      CreatedDir(s, d, i);
    } else {
      assert s.refs[i] == 0;
      CreatedFile(s, d, i, kind);
    }
  }

  lemma CreateFailKeeps(s: State, d: int, i: int, kind: int)
    requires Inv(s) && Enabled(s, CreateFail(d, i, kind))
    ensures Inv(Step(s, CreateFail(d, i, kind)))
  {
    if i !in s.dying {
      assert s.refs[i] == 0;
      FreeUnnamed(s, i);
      var t := Step(s, CreateFail(d, i, kind));
      hide Promises, Namers;
      forall j
        ensures CountOk(t, j)
      {
        assert CountOk(s, j);
        assert |Promises(s.tasks, i)| == 0;
      }
    }
  }

  // ---------------------------------------------------------------- every step

  /** ialloc has found an inode nobody refers to. */
  predicate Clean(s: State, e: Event) {
    e.Create? ==> e.i !in s.refs
  }

  lemma StepKeeps(s: State, e: Event)
    requires Inv(s) && Enabled(s, e)
    ensures Inv(Step(s, e)) <==> Clean(s, e)
  {
    hide CountsOk, CountOk, Frees;
    match e {
      case GetRoot => RootAlive(s); GotKeeps(s, ROOT);
      case Dup(i) => GotKeeps(s, i);
      case Lookup(d, k) =>
        ValidKeeps(s, s.valid + {d});
        NotDying(s, d, k);
        GotKeeps(s.(valid := s.valid + {d}), s.dirs[d][k]);
      case Load(i) => ValidKeeps(s, s.valid + {i});
      case Put(i) => PutKeeps(s, i);
      case FreeEnd(i) => FreeEndKeeps(s, i);
      case LinkInc(p, i) => LinkIncKeeps(s, p, i);
      case LinkAdd(p, d) => LinkAddKeeps(s, p, d);
      case LinkFail(p) => DecKeeps(s, p);
      case UnlinkClear(p, d, k) => UnlinkClearKeeps(s, p, d, k);
      case UnlinkDec(p) => DecKeeps(s, p);
      case Create(d, i, kind) => CreateExactly(s, d, i, kind);
      case CreateFail(d, i, kind) => CreateFailKeeps(s, d, i, kind);
    }
  }

  lemma RootAlive(s: State)
    requires Inv(s)
    ensures ROOT in s.node && s.node[ROOT].kind != 0 && ROOT !in s.dying
  {
  }

  lemma NotDying(s: State, d: int, k: int)
    requires Inv(s) && Enabled(s, Lookup(d, k))
    ensures var i := s.dirs[d][k]; i in s.node && s.node[i].kind != 0 && i !in s.dying
  {
  }

  /** The panic in unlink is never reached, and a decrement finds a link to take back. */
  lemma NeverPanics(s: State, e: Event)
    requires Inv(s) && Enabled(s, e)
    ensures !Panics(s, e)
    ensures (e.UnlinkDec? || e.LinkFail?) ==> s.node[s.tasks[e.p].i].nlink >= 1
  {
    if e.UnlinkClear? {
      var i := s.dirs[e.d][e.k];
      assert Names(s.dirs, e.d, e.k, i);
      assert (e.d, e.k) in Namers(s.dirs, i);
      assert CountOk(s, i);
    } else if e.UnlinkDec? || e.LinkFail? {
      var i := s.tasks[e.p].i;
      assert e.p in Promises(s.tasks, i);
      assert CountOk(s, i);
    }
  }
}
