/**
 Link counts, directory entries and inode references under all interleavings of link, unlink, create and iput
 (sysfile.c, fs.c).
 */
module LinkSpec {
  const ROOT: int := 1
  const T_DIR: int := 1

  /** A dinode: kind 0 is free. */
  datatype Node = Node(kind: int, nlink: int)

  /**
   A system call between two of its locked sections, with a reference to the inode whose link count it owes a
   change.
   */
  datatype Task = Linking(i: int) | Unlinking(i: int)

  /**
   * The inodes; for every directory the inode numbers of its entries in order, 0 for an empty one; the references held
   * on cached inodes; which cached inodes have been read from disk; which ones an iput is freeing; the calls under way.
   */
  datatype State = State(
    node: map<int, Node>,
    dirs: map<int, seq<int>>,
    refs: multiset<int>,
    valid: set<int>,
    dying: set<int>,
    tasks: map<int, Task>)

  datatype Event =
    | GetRoot
    | Dup(i: int)
    | Lookup(d: int, k: int)
    | Load(i: int)
    | Put(i: int)
    | FreeEnd(i: int)
    | LinkInc(p: int, i: int)
    | LinkAdd(p: int, d: int)
    | LinkFail(p: int)
    | UnlinkClear(p: int, d: int, k: int)
    | UnlinkDec(p: int)
    | Create(d: int, i: int, kind: int)
    | CreateFail(d: int, i: int, kind: int)

  // ---------------------------------------------------------------- directories

  /** The first empty entry, or the end. */
  function FirstEmpty(es: seq<int>): (k: nat)
    ensures k <= |es| && (k < |es| ==> es[k] == 0) && forall j {:trigger es[j]} :: 0 <= j < k ==> es[j] != 0
    decreases |es|
  {
    if es == [] || es[0] == 0 then 0
    else
      assert forall j {:trigger es[j]} :: 0 < j < |es| ==> es[j] == es[1..][j - 1];
      1 + FirstEmpty(es[1..])
  }

  /** dirlink of a name that is not there. */
  function WithEntry(es: seq<int>, i: int): (r: seq<int>)
    ensures var k := FirstEmpty(es);
      |es| <= |r| && k < |r| && r[k] == i && forall j {:trigger r[j]} :: 0 <= j < |r| && j != k ==>
      j < |es| && r[j] == es[j]
  {
    var k := FirstEmpty(es);
    if k < |es| then es[k := i] else es + [i]
  }

  /** isdirempty: nothing after the two dot entries. */
  predicate DirEmpty(es: seq<int>) {
    forall k {:trigger es[k]} :: 2 <= k < |es| ==> es[k] == 0
  }

  // ---------------------------------------------------------------- who names whom

  /** Entry k of directory d names inode i, and d is not i itself. */
  predicate Names(dirs: map<int, seq<int>>, d: int, k: int, i: int) {
    d in dirs && 0 <= k < |dirs[d]| && dirs[d][k] == i && d != i
  }

  /** The entries that name inode i, its own excluded. */
  ghost function Namers(dirs: map<int, seq<int>>, i: int): set<(int, int)> {
    set d, k | d in dirs && 0 <= k < |dirs[d]| && Names(dirs, d, k, i) :: (d, k)
  }

  /** The calls that have changed entries or are about to, and have a link count to settle. */
  ghost function Promises(tasks: map<int, Task>, i: int): set<int> {
    set p | p in tasks && tasks[p].i == i
  }

  // ---------------------------------------------------------------- steps

  predicate Held(s: State, i: int) {
    s.refs[i] > 0 && i !in s.dying
  }

  predicate Dir(s: State, d: int) {
    Held(s, d) && d in s.node && s.node[d].kind == T_DIR && d in s.dirs
  }

  ghost predicate Enabled(s: State, e: Event) {
    match e
    case GetRoot => true
    case Dup(i) => Held(s, i)
    case Lookup(d, k) => Dir(s, d) && 0 <= k < |s.dirs[d]| && s.dirs[d][k] != 0
    case Load(i) => Held(s, i)
    case Put(i) => Held(s, i) && |Promises(s.tasks, i)| < s.refs[i] && i in s.node
    case FreeEnd(i) => i in s.dying
    case LinkInc(p, i) => p !in s.tasks && Held(s, i) && |Promises(s.tasks, i)| < s.refs[i] && i in s.node
      && s.node[i].kind != T_DIR
    case LinkAdd(p, d) => p in s.tasks && s.tasks[p].Linking? && Dir(s, d)
    case LinkFail(p) => p in s.tasks && s.tasks[p].Linking? && s.tasks[p].i in s.node
    case UnlinkClear(p, d, k) =>
      && p !in s.tasks && Dir(s, d) && 2 <= k < |s.dirs[d]|
      && var i := s.dirs[d][k];
      i != 0 && (i in s.dirs ==> DirEmpty(s.dirs[i]))
    case UnlinkDec(p) => p in s.tasks && s.tasks[p].Unlinking? && s.tasks[p].i in s.node
    case Create(d, i, kind) => Dir(s, d) && i in s.node && s.node[i].kind == 0 && kind != 0 && 0 < i
    case CreateFail(d, i, kind) => Dir(s, d) && i in s.node && s.node[i].kind == 0 && kind != 0 && 0 < i
  }

  /** iget: a slot taken afresh has not been read from disk. */
  function Got(s: State, i: int): State {
    s.(refs := s.refs + multiset{i}, valid := if s.refs[i] == 0 then s.valid - {i} else s.valid)
  }

  /** iput would free the inode. */
  predicate Frees(s: State, i: int)
    requires i in s.node
  {
    s.refs[i] == 1 && i in s.valid && s.node[i].nlink == 0
  }

  /** Changing a link count, with iupdate. */
  function Linked(s: State, i: int, delta: int): State
    requires i in s.node
  {
    s.(node := s.node[i := s.node[i].(nlink := s.node[i].nlink + delta)], valid := s.valid + {i})
  }

  /** create: the inode ialloc found, one link, its entry in d, and for a directory the two dots. */
  function Created(s: State, d: int, i: int, kind: int): State
    requires Dir(s, d) && i in s.node && d != i
  {
    var entered := s.dirs[d := WithEntry(s.dirs[d], i)];
    var up := if kind == T_DIR then s.node[d := s.node[d].(nlink := s.node[d].nlink + 1)] else s.node;
    s.(node := up[i := Node(kind, 1)],
       dirs := if kind == T_DIR then entered[i := WithEntry(WithEntry([], i), d)] else entered,
       refs := s.refs + multiset{i},
       valid := s.valid + {i, d})
  }

  /**
   When the slot of i is still held by the iput that freed it, iget finds it marked as read, with the kind set to
   0.
   */
  function CreatedStale(s: State, d: int, i: int, kind: int): State
    requires Dir(s, d) && i in s.node && d != i
  {
    var t := Created(s, d, i, kind);
    t.(node := t.node[i := Node(0, 1)], refs := s.refs, dying := s.dying - {i})
  }

  function Step(s: State, e: Event): State
    requires Enabled(s, e)
  {
    match e
    case GetRoot => Got(s, ROOT)
    case Dup(i) => Got(s, i)
    case Lookup(d, k) => Got(s.(valid := s.valid + {d}), s.dirs[d][k])
    case Load(i) => s.(valid := s.valid + {i})
    case Put(i) =>
      if Frees(s, i) then s.(node := s.node[i := s.node[i].(kind := 0)], dirs := s.dirs - {i}, dying := s.dying + {i})
      else s.(refs := s.refs - multiset{i})
    case FreeEnd(i) => s.(dying := s.dying - {i}, refs := s.refs - multiset{i})
    case LinkInc(p, i) => Linked(s, i, 1).(tasks := s.tasks[p := Linking(i)])
    case LinkAdd(p, d) => s.(dirs := s.dirs[d := WithEntry(s.dirs[d], s.tasks[p].i)], valid := s.valid + {d},
      tasks := s.tasks - {p})
    case LinkFail(p) => Linked(s, s.tasks[p].i, -1).(tasks := s.tasks - {p})
    case UnlinkClear(p, d, k) =>
      var i := s.dirs[d][k];
      var t := Got(s.(valid := s.valid + {d}), i);
      t.(dirs := s.dirs[d := s.dirs[d][k := 0]], valid := t.valid + {i}, tasks := s.tasks[p := Unlinking(i)])
    case UnlinkDec(p) => Linked(s, s.tasks[p].i, -1).(tasks := s.tasks - {p})
    case Create(d, i, kind) => if i in s.dying then CreatedStale(s, d, i, kind) else Created(s, d, i, kind)
    case CreateFail(d, i, kind) =>
      if i in s.dying then s
        else s.(refs := s.refs + multiset{i}, valid := s.valid + {i, d}, dying := s.dying + {i},
        node := s.node[i := Node(0, 0)])
  }

  /** sys_unlink's panic. */
  predicate Panics(s: State, e: Event) {
    e.UnlinkClear? && e.d in s.dirs && 0 <= e.k < |s.dirs[e.d]| && s.dirs[e.d][e.k] in s.node
      && s.node[s.dirs[e.d][e.k]].nlink < 1
  }

  // ---------------------------------------------------------------- the invariant

  /** A directory has its dots: itself and its parent; and names itself nowhere else. */
  predicate Dotted(es: seq<int>, d: int) {
    2 <= |es| && es[0] == d && es[1] != 0 && forall k {:trigger es[k]} :: 2 <= k < |es| ==> es[k] != d
  }

  ghost predicate DirsOk(s: State) {
    && 0 !in s.node
    && ROOT in s.node && s.node[ROOT].kind == T_DIR
    && (forall d {:trigger s.dirs[d]} :: d in s.dirs ==> d in s.node && s.node[d].kind == T_DIR && Dotted(s.dirs[d], d))
    && (forall d {:trigger s.node[d]} :: d in s.node && s.node[d].kind == T_DIR ==> d in s.dirs)
  }

  /** No entry dangles. */
  ghost predicate NoneDangle(s: State) {
    forall d, k {:trigger s.dirs[d][k]} :: d in s.dirs && 0 <= k < |s.dirs[d]| && s.dirs[d][k] != 0 ==>
      s.dirs[d][k] in s.node && s.node[s.dirs[d][k]].kind != 0
  }

  /** The names of i and the promises about it fit its link count; the root keeps one link more. */
  ghost predicate CountOk(s: State, i: int) {
    i in s.node ==> s.node[i].nlink >= |Namers(s.dirs, i)| + |Promises(s.tasks, i)| + (if i == ROOT then 1 else 0)
  }

  ghost predicate CountsOk(s: State) {
    forall i {:trigger CountOk(s, i)} :: CountOk(s, i)
  }

  /** A reference keeps its inode alive, apart from the last one, in an iput that is freeing it. */
  ghost predicate RefsOk(s: State) {
    && (forall i {:trigger s.refs[i]} :: s.refs[i] > 0 ==> i in s.node && (s.node[i].kind != 0 || i in s.dying))
    && (forall i {:trigger i in s.dying} :: i in s.dying ==> s.refs[i] == 1 && i in s.node && s.node[i].kind == 0)
    && (forall i {:trigger Promises(s.tasks, i)} :: |Promises(s.tasks, i)| <= s.refs[i])
    && (forall p {:trigger s.tasks[p]} :: p in s.tasks ==> s.tasks[p].i in s.node && s.node[s.tasks[p].i].kind != 0)
    && (forall p {:trigger s.tasks[p]} :: p in s.tasks && s.tasks[p].Linking? ==> s.node[s.tasks[p].i].kind != T_DIR)
  }

  ghost predicate Inv(s: State) {
    DirsOk(s) && NoneDangle(s) && CountsOk(s) && RefsOk(s)
  }
}
