/** Path names (fs.c): their components, and the walk over them with its inode references. */
module Paths {
  import opened Directories

  const ROOT: int := 1

  // ---------------------------------------------------------------- components

  function Slashes(p: string): (n: nat)
    ensures n <= |p| && (n < |p| ==> p[n] != '/') && forall i {:trigger p[i]} :: 0 <= i < n ==> p[i] == '/'
    decreases |p|
  {
    if p != "" && p[0] == '/' then
      assert forall i {:trigger p[i]} :: 0 < i < |p| ==> p[i] == p[1..][i - 1];
      1 + Slashes(p[1..])
    else 0
  }

  function ElemLen(p: string): (n: nat)
    ensures n <= |p| && (n < |p| ==> p[n] == '/') && forall i {:trigger p[i]} :: 0 <= i < n ==> p[i] != '/'
    decreases |p|
  {
    if p != "" && p[0] != '/' then
      assert forall i {:trigger p[i]} :: 0 < i < |p| ==> p[i] == p[1..][i - 1];
      1 + ElemLen(p[1..])
    else 0
  }

  /** The names between the slashes. */
  function Components(p: string): (cs: seq<string>)
    decreases |p|
  {
    if p == "" then []
    else if p[0] == '/' then Components(p[1..])
    else [p[..ElemLen(p)]] + Components(p[ElemLen(p)..])
  }

  predicate Elem(e: string) {
    e != "" && '/' !in e
  }

  /** Names written out one after another, each behind some slashes, and some slashes at the end. */
  function Written(es: seq<string>, gaps: seq<nat>): string
    requires |gaps| == |es| + 1
    decreases |es|
  {
    if es == [] then seq(gaps[0], _ => '/') else seq(gaps[0], _ => '/') + es[0] + Written(es[1..], gaps[1..])
  }

  lemma {:induction false} SlashesSkipped(n: nat, p: string)
    ensures Components(seq(n, _ => '/') + p) == Components(p)
    decreases n
  {
    var s := seq(n, _ => '/') + p;
    if n == 0 {
      assert s == p;
    } else {
      assert s[0] == '/' && s[1..] == seq(n - 1, _ => '/') + p;
      SlashesSkipped(n - 1, p);
    }
  }

  lemma ElemFirst(e: string, rest: string)
    requires Elem(e) && (rest == "" || rest[0] == '/')
    ensures Components(e + rest) == [e] + Components(rest)
  {
    var s := e + rest;
    var n := ElemLen(s);
    assert forall i {:trigger s[i]} :: 0 <= i < |e| ==> s[i] == e[i] && e[i] in e;
    assert rest != "" ==> s[|e|] == '/';
    assert s[..n] == e && s[n..] == rest;
  }

  lemma WrittenStart(es: seq<string>, gaps: seq<nat>)
    requires |gaps| == |es| + 1 && 0 < gaps[0]
    ensures Written(es, gaps) != "" && Written(es, gaps)[0] == '/'
  {
  }

  /** Whatever slashes are put between, before and after them, the names come back. */
  lemma {:induction false} ComponentsWritten(es: seq<string>, gaps: seq<nat>)
    requires |gaps| == |es| + 1
    requires forall i {:trigger es[i]} :: 0 <= i < |es| ==> Elem(es[i])
    requires forall i {:trigger gaps[i]} :: 1 <= i < |es| ==> 0 < gaps[i]
    ensures Components(Written(es, gaps)) == es
    decreases |es|
  {
    var lead := seq(gaps[0], _ => '/');
    if es == [] {
      SlashesSkipped(gaps[0], "");
      assert lead + "" == lead;
    } else {
      var rest := Written(es[1..], gaps[1..]);
      ComponentsWritten(es[1..], gaps[1..]);
      assert Written(es, gaps) == lead + (es[0] + rest);
      SlashesSkipped(gaps[0], es[0] + rest);
      assert rest == "" || rest[0] == '/' by {
        if 1 < |es| || 0 < gaps[1] {
          WrittenStart(es[1..], gaps[1..]);
        }
      }
      ElemFirst(es[0], rest);
    }
  }

  // ---------------------------------------------------------------- skipelem

  /** A path from its first slash or element on. */
  lemma {:induction false} SkipSlashes(p: string)
    ensures Components(p[Slashes(p)..]) == Components(p)
    ensures Components(p) == [] <==> Slashes(p) == |p|
    decreases |p|
  {
    if p != "" && p[0] == '/' {
      SkipSlashes(p[1..]);
      assert p[Slashes(p)..] == p[1..][Slashes(p[1..])..];
    } else {
      assert p[0..] == p;
    }
  }

  /** The loop over slashes. */
  method SlashRun(p: string) returns (i: nat)
    ensures i == Slashes(p)
  {
    i := 0;
    while At(p, i) == '/'
      invariant 0 <= i <= Slashes(p)
      decreases |p| - i
    {
      i := i + 1;
    }
  }

  /** The loop over the characters of an element. */
  method ElemRun(p: string) returns (n: nat)
    requires '\0' !in p
    ensures n == ElemLen(p)
  {
    n := 0;
    while At(p, n) != '/' && At(p, n) != '\0'
      invariant 0 <= n <= ElemLen(p)
      decreases |p| - n
    {
      n := n + 1;
    }
    assert n < |p| ==> p[n] in p;
  }

  /**
   skipelem: the first component, cut at DIRSIZ, and the path after it without leading slashes; false for no
   component.
   */
  method Skipelem(path: string) returns (found: bool, rest: string, name: string)
    requires '\0' !in path
    ensures found <==> Components(path) != []
    ensures found ==> name == Key(Components(path)[0]) && Components(rest) == Components(path)[1..]
    ensures found ==> (rest == "" <==> |Components(path)| == 1)
    ensures '\0' !in rest && |rest| <= |path| && (found ==> |rest| < |path|)
  {
    hide Components, Key;
    var i := SlashRun(path);
    SkipSlashes(path);
    assert i < |path| ==> path[i] in path;
    if At(path, i) == '\0' {
      return false, "", "";
    }
    var p := path[i..];
    var n := ElemRun(p);
    FirstElem(p);
    CutKey(p[..n]);
    name := if n >= DIRSIZ then p[..DIRSIZ] else p[..n];
    assert p[..n][..if n >= DIRSIZ then DIRSIZ else n] == name;
    var q := p[n..];
    var j := SlashRun(q);
    SkipSlashes(q);
    assert q[j..] == path[i + n + j..];
    return true, q[j..], name;
  }

  lemma FirstElem(p: string)
    requires p != "" && p[0] != '/'
    ensures 0 < ElemLen(p) && Components(p) == [p[..ElemLen(p)]] + Components(p[ElemLen(p)..])
  {
  }

  lemma {:induction false} CutPrefix(e: string, n: nat)
    requires '\0' !in e
    ensures Prefix(e, n) == if n <= |e| then e[..n] else e
    decreases n
  {
    if n != 0 && e != "" {
      assert e[0] in e;
      CutPrefix(e[1..], n - 1);
      assert n <= |e| ==> e[..n] == [e[0]] + e[1..][..n - 1];
    }
  }

  lemma CutKey(e: string)
    requires '\0' !in e
    ensures Key(e) == if DIRSIZ <= |e| then e[..DIRSIZ] else e
  {
    CutPrefix(e, DIRSIZ);
  }

  // ---------------------------------------------------------------- the walk

  /** What an inode is to the walk: a directory with its names, or something else. */
  datatype Cell = Dir(names: map<seq<char>, int>) | Other

  /** The inode that following the names leads to; 0 for none. */
  function Walk(fs: map<int, Cell>, i: int, cs: seq<string>): int
    decreases |cs|
  {
    if cs == [] then i
    else if i in fs && fs[i].Dir? && Key(cs[0]) in fs[i].names then Walk(fs, fs[i].names[Key(cs[0])], cs[1..])
    else 0
  }

  /** namei: all the components; nameiparent: all but the last, to a directory. */
  function Resolved(fs: map<int, Cell>, i: int, cs: seq<string>, parent: bool): int {
    if !parent then Walk(fs, i, cs)
    else if cs == [] then 0
    else
      var d := Walk(fs, i, cs[..|cs| - 1]);
      if d in fs && fs[d].Dir? then d else 0
  }

  /** The name that nameiparent leaves to its caller. */
  function LastName(cs: seq<string>): seq<char> {
    if cs == [] then [] else Key(cs[|cs| - 1])
  }

  /** No directory entry has inode number 0. */
  predicate NonZero(fs: map<int, Cell>) {
    0 !in fs && forall d {:trigger fs[d]} :: d in fs && fs[d].Dir? ==>
      forall n {:trigger fs[d].names[n]} :: n in fs[d].names ==> fs[d].names[n] in fs
  }

  /** Each inode of the trail is a directory in which the next component names the next one. */
  predicate Trail(fs: map<int, Cell>, at: seq<int>, cs: seq<string>) {
    |at| == |cs| + 1 && forall k {:trigger cs[k]} :: 0 <= k < |cs| ==>
      && at[k] in fs && fs[at[k]].Dir?
      && Key(cs[k]) in fs[at[k]].names && fs[at[k]].names[Key(cs[k])] == at[k + 1]
  }

  ghost predicate Leads(fs: map<int, Cell>, i: int, cs: seq<string>, j: int) {
    exists at {:trigger Trail(fs, at, cs)} :: Trail(fs, at, cs) && at[0] == i && at[|cs|] == j
  }

  /** The walk ends at j exactly if a trail of directories leads there. */
  lemma {:induction false} WalkExactly(fs: map<int, Cell>, i: int, cs: seq<string>, j: int)
    requires NonZero(fs) && i in fs && j != 0
    ensures Walk(fs, i, cs) == j <==> Leads(fs, i, cs, j)
    decreases |cs|
  {
    hide Key;
    if cs == [] {
      assert i == j ==> Trail(fs, [i], cs) && [i][0] == i;
    } else {
      LeadsFrom(fs, i, cs, j);
      if fs[i].Dir? && Key(cs[0]) in fs[i].names {
        WalkExactly(fs, fs[i].names[Key(cs[0])], cs[1..], j);
        LeadsOn(fs, i, cs, j);
      }
    }
  }

  lemma TrailTail(fs: map<int, Cell>, at: seq<int>, cs: seq<string>)
    requires cs != [] && Trail(fs, at, cs)
    ensures Trail(fs, at[1..], cs[1..]) && at[0] in fs && fs[at[0]].Dir? && Key(cs[0]) in fs[at[0]].names
    ensures fs[at[0]].names[Key(cs[0])] == at[1]
  {
    hide Key;
    assert Key(cs[0]) in fs[at[0]].names;
    forall k | 0 <= k < |cs| - 1
      ensures cs[1..][k] == cs[k + 1] && at[1..][k] == at[k + 1]
    {
    }
  }

  lemma TrailCons(fs: map<int, Cell>, i: int, at: seq<int>, cs: seq<string>)
    requires cs != [] && i in fs && fs[i].Dir? && Key(cs[0]) in fs[i].names && Trail(fs, at, cs[1..])
    requires fs[i].names[Key(cs[0])] == at[0]
    ensures Trail(fs, [i] + at, cs)
  {
    hide Key;
    var all, rest := [i] + at, cs[1..];
    forall k | 0 <= k < |cs|
      ensures all[k] in fs && fs[all[k]].Dir? && Key(cs[k]) in fs[all[k]].names
        && fs[all[k]].names[Key(cs[k])] == all[k + 1]
    {
      if k > 0 {
        assert Key(rest[k - 1]) in fs[at[k - 1]].names;
        assert cs[k] == rest[k - 1] && all[k] == at[k - 1] && all[k + 1] == at[k];
      }
    }
  }

  lemma LeadsFrom(fs: map<int, Cell>, i: int, cs: seq<string>, j: int)
    requires cs != []
    ensures Leads(fs, i, cs, j) ==> i in fs && fs[i].Dir? && Key(cs[0]) in fs[i].names
  {
    hide Key;
    if at :| Trail(fs, at, cs) && at[0] == i && at[|cs|] == j {
      TrailTail(fs, at, cs);
    }
  }

  lemma LeadsOn(fs: map<int, Cell>, i: int, cs: seq<string>, j: int)
    requires cs != [] && i in fs && fs[i].Dir? && Key(cs[0]) in fs[i].names
    ensures Leads(fs, i, cs, j) <==> Leads(fs, fs[i].names[Key(cs[0])], cs[1..], j)
  {
    hide Key;
    if at :| Trail(fs, at, cs) && at[0] == i && at[|cs|] == j {
      TrailTail(fs, at, cs);
    }
    if at :| Trail(fs, at, cs[1..]) && at[0] == fs[i].names[Key(cs[0])] && at[|cs| - 1] == j {
      TrailCons(fs, i, at, cs);
    }
  }

  /** namei finds j exactly if the components lead to it, nameiparent if all but the last do and j is a directory. */
  lemma ResolvedExactly(fs: map<int, Cell>, i: int, cs: seq<string>, parent: bool, j: int)
    requires NonZero(fs) && i in fs && j != 0
    ensures Resolved(fs, i, cs, parent) == j <==>
      if parent then cs != [] && Leads(fs, i, cs[..|cs| - 1], j) && j in fs && fs[j].Dir? else Leads(fs, i, cs, j)
  {
    hide Walk, Leads;
    if !parent {
      WalkExactly(fs, i, cs, j);
    } else if cs != [] {
      WalkExactly(fs, i, cs[..|cs| - 1], j);
    }
  }

  lemma ResolvedStep(fs: map<int, Cell>, i: int, cs: seq<string>, parent: bool)
    requires cs != [] && NonZero(fs) && i in fs
    ensures !fs[i].Dir? ==> Resolved(fs, i, cs, parent) == 0
    ensures fs[i].Dir? && parent && |cs| == 1 ==> Resolved(fs, i, cs, parent) == i
    ensures fs[i].Dir? && !(parent && |cs| == 1) && Key(cs[0]) !in fs[i].names ==> Resolved(fs, i, cs, parent) == 0
    ensures fs[i].Dir? && !(parent && |cs| == 1) && Key(cs[0]) in fs[i].names ==>
      Resolved(fs, i, cs, parent) == Resolved(fs, fs[i].names[Key(cs[0])], cs[1..], parent)
    ensures |cs| == 1 ==> LastName(cs) == Key(cs[0])
    ensures 1 < |cs| ==> LastName(cs) == LastName(cs[1..])
  {
    hide Key;
    if parent && 1 < |cs| {
      var front := cs[..|cs| - 1];
      assert front[0] == cs[0] && front[1..] == cs[1..][..|cs| - 2];
    }
  }

  class Walker {
    /** The references held on inodes. */
    var refs: multiset<int>

    /** dirlookup's reference to the next inode, and iunlockput of the one before. */
    method Move(ip: int, to: int, ghost others: multiset<int>)
      requires refs == others + multiset{ip}
      modifies this
      ensures refs == others + multiset{to}
    {
      refs := refs + multiset{to};
      refs := refs - multiset{ip};
    }

    /** iunlockput of the last inode reached. */
    method Drop(ip: int, ghost others: multiset<int>)
      requires refs == others + multiset{ip}
      modifies this
      ensures refs == others
    {
      refs := refs - multiset{ip};
    }

    /**
     _namei over a file system that stays as it is meanwhile; name is the last element when the parent is asked
     for.
     */
    method Namei(fs: map<int, Cell>, path: string, parent: bool, cwd: int) returns (ip: int, name: string)
      requires NonZero(fs) && ROOT in fs && cwd in fs && '\0' !in path
      modifies this
      ensures var cs := Components(path);
        && ip == Resolved(fs, if path != "" && path[0] == '/' then ROOT else cwd, cs, parent)
        && (parent && ip != 0 ==> cs != [] && name == LastName(cs))
      ensures refs == old(refs) + (if ip == 0 then multiset{} else multiset{ip})
    {
      hide Components, Key, Resolved, NonZero, Walk, LastName;
      ip := if At(path, 0) == '/' then ROOT else cwd;
      refs := refs + multiset{ip};
      ghost var start, all := ip, Components(path);
      ghost var cs := all;
      assert path != "" ==> path[0] in path;
      name := "";
      var found, rest, next := Skipelem(path);
      while found
        invariant ip in fs && refs == old(refs) + multiset{ip} && '\0' !in rest
        invariant found <==> cs != []
        invariant found ==> next == Key(cs[0]) && Components(rest) == cs[1..] && (rest == "" <==> |cs| == 1)
        invariant cs != [] ==> all != [] && LastName(cs) == LastName(all)
        invariant Resolved(fs, ip, cs, parent) == Resolved(fs, start, all, parent)
        decreases |cs|
      {
        name := next;
        ResolvedStep(fs, ip, cs, parent);
        if !fs[ip].Dir? {
          Drop(ip, old(refs));
          return 0, name;
        }
        if parent && rest == "" {
          NotZero(fs, ip);
          return;
        }
        if name !in fs[ip].names {
          Drop(ip, old(refs));
          return 0, name;
        }
        var to := fs[ip].names[name];
        Followed(fs, ip, name);
        Move(ip, to, old(refs));
        ip, cs := to, cs[1..];
        found, rest, next := Skipelem(rest);
      }
      ResolvedEnd(fs, ip, parent);
      if parent {
        Drop(ip, old(refs));
        return 0, name;
      }
      NotZero(fs, ip);
    }
  }

  lemma ResolvedEnd(fs: map<int, Cell>, i: int, parent: bool)
    ensures Resolved(fs, i, [], parent) == if parent then 0 else i
  {
  }

  lemma NotZero(fs: map<int, Cell>, i: int)
    requires NonZero(fs) && i in fs
    ensures i != 0
  {
  }

  lemma Followed(fs: map<int, Cell>, d: int, n: seq<char>)
    requires NonZero(fs) && d in fs && fs[d].Dir? && n in fs[d].names
    ensures fs[d].names[n] in fs
  {
  }
}
