/** A directory's entries as a map from names to inode numbers (fs.c, string.c). */
module Directories {
  const DIRSIZ: int := 14
  /** Entries to a block. */
  const PER: int := 32
  /** Entries in a directory of MAXFILE blocks. */
  const MAXENTS: int := 140 * PER

  // ---------------------------------------------------------------- names

  /** The character at i of a C string or of a field: NUL from its end on. */
  function At(s: seq<char>, i: nat): char {
    if i < |s| then s[i] else '\0'
  }

  /** What a comparison of at most n characters sees. */
  function Prefix(s: seq<char>, n: nat): (r: seq<char>)
    ensures |r| <= n
    decreases n
  {
    if n == 0 || s == [] || s[0] == '\0' then [] else [s[0]] + Prefix(s[1..], n - 1)
  }

  /** A name as directories know it: cut at DIRSIZ characters. */
  function Key(s: seq<char>): seq<char> {
    Prefix(s, DIRSIZ)
  }

  lemma PrefixStep(s: seq<char>, i: nat, n: nat)
    requires i <= |s|
    ensures Prefix(s[i..], n) == if n == 0 || At(s, i) == '\0' then [] else [At(s, i)] + Prefix(s[i + 1..], n - 1)
  {
    if i < |s| {
      assert s[i..][0] == s[i] && s[i..][1..] == s[i + 1..];
    }
  }

  /** strncmp: 0 exactly for strings with equal prefixes. */
  method Strncmp(p: seq<char>, q: seq<char>, n: nat) returns (r: int)
    ensures r == 0 <==> Prefix(p, n) == Prefix(q, n)
  {
    var i, left := 0, n;
    assert p[0..] == p && q[0..] == q;
    while left > 0 && At(p, i) != '\0' && At(p, i) == At(q, i)
      invariant 0 <= i <= |p| && i <= |q| && 0 <= left
      invariant Prefix(p, n) == Prefix(q, n) <==> Prefix(p[i..], left) == Prefix(q[i..], left)
      decreases left
    {
      PrefixStep(p, i, left);
      PrefixStep(q, i, left);
      SameHead(At(p, i), Prefix(p[i + 1..], left - 1), Prefix(q[i + 1..], left - 1));
      i, left := i + 1, left - 1;
    }
    PrefixStep(p, i, left);
    PrefixStep(q, i, left);
    if left == 0 {
      return 0;
    }
    assert At(p, i) != '\0' ==> Prefix(p[i..], left)[0] == At(p, i);
    assert At(q, i) != '\0' ==> Prefix(q[i..], left)[0] == At(q, i);
    return At(p, i) as int - At(q, i) as int;
  }

  lemma SameHead(c: char, a: seq<char>, b: seq<char>)
    ensures [c] + a == [c] + b <==> a == b
  {
    assert ([c] + a)[1..] == a && ([c] + b)[1..] == b;
  }

  /** strncpy into a field of n characters: the prefix, then NULs. */
  method Strncpy(t: seq<char>, n: nat) returns (f: seq<char>)
    ensures |f| == n && Prefix(f, n) == Prefix(t, n)
    ensures forall k {:trigger f[k]} :: |Prefix(t, n)| <= k < n ==> f[k] == '\0'
  {
    hide Prefix;
    PrefixNul(t, n);
    var body := Copied(t, n);
    f := Padded(body, n);
    PrefixOf(f, body, n);
  }

  /** The loop of strncpy that copies. */
  method Copied(t: seq<char>, n: nat) returns (f: seq<char>)
    ensures f == Prefix(t, n)
  {
    hide Prefix;
    f := [];
    assert t[0..] == t;
    assert [] + Prefix(t, n) == Prefix(t, n);
    while |f| < n && At(t, |f|) != '\0'
      invariant |f| <= n && |f| <= |t| && Prefix(t, n) == f + Prefix(t[|f|..], n - |f|)
    {
      PrefixStep(t, |f|, n - |f|);
      Regroup(f, t[|f|], Prefix(t[|f| + 1..], n - |f| - 1));
      f := f + [t[|f|]];
    }
    PrefixStep(t, |f|, n - |f|);
    assert f + [] == f;
  }

  lemma Regroup(a: seq<char>, c: char, b: seq<char>)
    ensures a + ([c] + b) == a + [c] + b
  {
  }

  /** The loop of strncpy that fills the rest of the field. */
  method Padded(body: seq<char>, n: nat) returns (f: seq<char>)
    requires |body| <= n
    ensures |f| == n && f[..|body|] == body && forall k {:trigger f[k]} :: |body| <= k < n ==> f[k] == '\0'
  {
    f := body;
    while |f| < n
      invariant |body| <= |f| <= n && f[..|body|] == body && forall k {:trigger f[k]} :: |body| <= k < |f| ==>
        f[k] == '\0'
    {
      f := f + ['\0'];
    }
  }

  lemma {:induction false} PrefixNul(t: seq<char>, n: nat)
    ensures '\0' !in Prefix(t, n)
    decreases n
  {
    if !(n == 0 || t == [] || t[0] == '\0') {
      PrefixNul(t[1..], n - 1);
    }
  }

  lemma {:induction false} PrefixOf(f: seq<char>, body: seq<char>, n: nat)
    requires |body| <= |f| == n && f[..|body|] == body && '\0' !in body
    requires |body| < n ==> f[|body|] == '\0'
    ensures Prefix(f, n) == body
    decreases n
  {
    if body != [] {
      assert f[0] == body[0] && body[0] in body;
      assert f[1..][..|body| - 1] == body[1..];
      PrefixOf(f[1..], body[1..], n - 1);
    }
  }

  // ---------------------------------------------------------------- entries

  datatype Dirent = Dirent(inum: int, name: seq<char>)

  predicate Live(es: seq<Dirent>, k: int) {
    0 <= k < |es| && es[k].inum != 0
  }

  /** Entry k is in use and carries the name. */
  predicate Binds(es: seq<Dirent>, k: int, key: seq<char>) {
    Live(es, k) && Key(es[k].name) == key
  }

  /** No two entries in use carry the same name. */
  ghost predicate Unique(es: seq<Dirent>) {
    forall j, k {:trigger Live(es, j), Live(es, k)} ::
      Live(es, j) && Live(es, k) && Key(es[j].name) == Key(es[k].name) ==> j == k
  }

  /** The directory as a map. */
  ghost function Contents(es: seq<Dirent>): map<seq<char>, int>
    requires Unique(es)
  {
    map k | 0 <= k < |es| && Live(es, k) :: Key(es[k].name) := es[k].inum
  }

  lemma ContentsAt(es: seq<Dirent>, k: int)
    requires Unique(es) && Live(es, k)
    ensures Key(es[k].name) in Contents(es) && Contents(es)[Key(es[k].name)] == es[k].inum
  {
  }

  lemma BoundSomewhere(es: seq<Dirent>, key: seq<char>) returns (k: int)
    requires Unique(es) && key in Contents(es)
    ensures Binds(es, k, key)
  {
    k :| 0 <= k < |es| && Live(es, k) && Key(es[k].name) == key;
  }

  lemma NotBound(es: seq<Dirent>, key: seq<char>)
    requires Unique(es) && forall k {:trigger Binds(es, k, key)} :: !Binds(es, k, key)
    ensures key !in Contents(es)
  {
    if key in Contents(es) {
      var k := BoundSomewhere(es, key);
    }
  }

  /** Entry k, free so far or new at the end, now carries a name that was not there. */
  lemma Bound(es: seq<Dirent>, more: seq<Dirent>, k: int)
    requires Unique(es) && 0 <= k < |more| && |es| <= |more| && !Live(es, k) && Live(more, k)
    requires forall j {:trigger more[j]} :: 0 <= j < |more| && j != k ==>
      if j < |es| then more[j] == es[j] else more[j].inum == 0
    requires Key(more[k].name) !in Contents(es)
    ensures Unique(more) && Contents(more) == Contents(es)[Key(more[k].name) := more[k].inum]
  {
    var key := Key(more[k].name);
    hide Key;
    forall j | Live(more, j) && j != k
      ensures Live(es, j) && Key(more[j].name) == Key(es[j].name) && Key(more[j].name) != key
    {
      assert more[j] == es[j];
      ContentsAt(es, j);
    }
    assert Unique(more);
    forall x
      ensures x in Contents(more) <==> x == key || x in Contents(es)
      ensures x in Contents(more) ==> Contents(more)[x] == Contents(es)[key := more[k].inum][x]
    {
      if x in Contents(more) {
        var j := BoundSomewhere(more, x);
        ContentsAt(more, j);
        if j != k {
          assert more[j] == es[j];
          ContentsAt(es, j);
        }
      }
      if x in Contents(es) {
        var j := BoundSomewhere(es, x);
        assert more[j] == es[j];
        ContentsAt(more, j);
      }
      ContentsAt(more, k);
    }
  }

  /** Clearing entry k, as unlink does, takes exactly its name away. */
  lemma Unbound(es: seq<Dirent>, k: int, zero: Dirent)
    requires Unique(es) && Live(es, k) && zero.inum == 0
    ensures Unique(es[k := zero]) && Contents(es[k := zero]) == Contents(es) - {Key(es[k].name)}
  {
    hide Key;
    var less, key := es[k := zero], Key(es[k].name);
    forall j | Live(less, j)
      ensures Live(es, j) && less[j] == es[j] && Key(es[j].name) != key
    {
      assert Live(es, j);
    }
    assert Unique(less);
    forall x
      ensures x in Contents(less) <==> x != key && x in Contents(es)
      ensures x in Contents(less) ==> Contents(less)[x] == Contents(es)[x]
    {
      if x in Contents(less) {
        var j := BoundSomewhere(less, x);
        ContentsAt(less, j);
        ContentsAt(es, j);
      }
      if x in Contents(es) && x != key {
        var j := BoundSomewhere(es, x);
        assert Live(less, j);
        ContentsAt(less, j);
      }
    }
  }

  // ---------------------------------------------------------------- the directory in place

  predicate Empty(e: Dirent) {
    e.inum == 0
  }

  class Directory {
    /** The entries of all its blocks, and how many of them lie below the directory's size. */
    var es: seq<Dirent>
    var size: nat

    /** The blocks reach past the size by less than a block, and hold nothing there. */
    ghost predicate Valid()
      reads this
    {
      && |es| % PER == 0 && size <= |es| < size + PER && size <= MAXENTS
      && (forall k {:trigger es[k]} :: size <= k < |es| ==> Empty(es[k]))
      && Unique(es)
    }

    ghost function Names(): map<seq<char>, int>
      requires Valid()
      reads this
    {
      Contents(es)
    }

    constructor ()
      ensures Valid() && size == 0 && Names() == map[]
    {
      es, size := [], 0;
    }

    /** dirlookup: the entry with the name, looking at every entry of every block; -1 when there is none. */
    method Lookup(name: seq<char>) returns (k: int, inum: int)
      requires Valid()
      ensures k == -1 <==> Key(name) !in Names()
      ensures k != -1 ==> Binds(es, k, Key(name)) && inum == es[k].inum == Names()[Key(name)] && k < size
      ensures k == -1 ==> inum == 0
    {
      hide Unique, Contents, Key;
      var off := 0;
      while off < size
        invariant 0 <= off && off % PER == 0 && off < size + PER
        invariant forall j {:trigger Binds(es, j, Key(name))} :: j < off ==> !Binds(es, j, Key(name))
        decreases size - off
      {
        var de := off;
        assert off + PER <= |es|;
        while de < off + PER
          invariant off <= de <= off + PER <= |es|
          invariant forall j {:trigger Binds(es, j, Key(name))} :: j < de ==> !Binds(es, j, Key(name))
        {
          assert size <= de ==> Empty(es[de]);
          if es[de].inum != 0 {
            var cmp := Strncmp(name, es[de].name, DIRSIZ);
            SameKey(name, es[de].name);
            if cmp == 0 {
              ContentsAt(es, de);
              return de, es[de].inum;
            }
          }
          de := de + 1;
        }
        off := off + PER;
      }
      NotBound(es, Key(name));
      return -1, 0;
    }

    /** No entry is free and the file cannot grow. */
    ghost predicate Full()
      reads this
    {
      size == MAXENTS && forall k {:trigger es[k]} :: 0 <= k < |es| ==> es[k].inum != 0
    }

    /**
     dirlink: -1 when the name is there; otherwise it is added, to the first free entry; a full directory is a
     panic.
     */
    method Link(name: seq<char>, ino: int) returns (r: int, panicked: bool)
      requires Valid() && ino != 0
      modifies this
      ensures Valid() && (r == 0 || r == -1)
      ensures panicked <==> Key(name) !in old(Names()) && old(Full())
      ensures r == -1 <==> Key(name) in old(Names())
      ensures r == -1 || panicked ==> es == old(es) && size == old(size)
      ensures r == 0 && !panicked ==> Names() == old(Names())[Key(name) := ino]
      ensures r == 0 && !panicked ==>
        size == old(size)
          || (size == old(size) + 1 && forall k {:trigger old(es)[k]} :: 0 <= k < old(size) ==> old(es)[k].inum != 0)
    {
      hide Unique, Contents, Key;
      var k, _ := Lookup(name);
      if k != -1 {
        return -1, false;
      }
      var off := 0;
      while off < size
        invariant 0 <= off <= size && es == old(es) && size == old(size)
        invariant forall j {:trigger es[j]} :: 0 <= j < off ==> es[j].inum != 0
      {
        if es[off].inum == 0 {
          break;
        }
        off := off + 1;
      }
      if off == MAXENTS {
        return 0, true;
      }
      var field := Strncpy(name, DIRSIZ);
      SameKey(name, field);
      var blocks := if off == |es| then es + seq(PER, _ => Dirent(0, [])) else es;
      Bound(es, blocks[off := Dirent(ino, field)], off);
      es := blocks[off := Dirent(ino, field)];
      size := if off == size then size + 1 else size;
      return 0, false;
    }

    /** The write of a zero entry in sys_unlink. */
    method Clear(k: int)
      requires Valid() && Live(es, k)
      modifies this
      ensures Valid() && size == old(size) && Names() == old(Names()) - {Key(old(es[k].name))}
    {
      hide Unique, Contents, Key;
      Unbound(es, k, Dirent(0, []));
      es := es[k := Dirent(0, [])];
    }
  }

  lemma SameKey(a: seq<char>, b: seq<char>)
    ensures Key(a) == Key(b) <==> Prefix(a, DIRSIZ) == Prefix(b, DIRSIZ)
  {
  }
}
