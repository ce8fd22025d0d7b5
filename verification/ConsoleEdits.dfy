/** What a line of keys comes to (console.c), told from the keys and not from the steps of the editor. */
module ConsoleEdits {
  import opened ConsoleSpec

  /** A key that stands for itself. */
  predicate Ordinary(c: int) {
    c != 0 && c != CTRL_P && c != CTRL_U && c != CTRL_H && c != NEWLINE && c != CTRL_D
  }

  predicate Ends(c: int) {
    c == NEWLINE || c == CTRL_D
  }

  /** Unread input and the line together. */
  function Held(d: Editor): int {
    |d.committed| + |d.line| - d.taken
  }

  /** The line without its last n keys. */
  function Shorter(line: seq<int>, n: nat): seq<int> {
    if n < |line| then line[..|line| - n] else []
  }

  /**
   The keys of a line that are not erased later, read from the last key back: n backspaces are still to be paid for by
   keys before them; control-U does away with all that is before it, which begins with line.
   */
  function Surviving(line: seq<int>, ks: seq<int>, n: nat): seq<int>
    decreases |ks|
  {
    if ks == [] then Shorter(line, n)
    else
      var before, k := ks[..|ks| - 1], ks[|ks| - 1];
      if k == CTRL_U then []
      else if k == CTRL_H then Surviving(line, before, n + 1)
      else if !Ordinary(k) then Surviving(line, before, n)
      else if n > 0 then Surviving(line, before, n - 1)
      else Surviving(line, before, 0) + [k]
  }

  /** No key ends the line, and it never fills the ring. */
  predicate OneLine(d: Editor, ks: seq<int>) {
    && (forall i {:trigger ks[i]} :: 0 <= i < |ks| ==> !Ends(ks[i]))
    && (forall m {:trigger ks[..m]} :: 0 <= m <= |ks| ==>
         |d.committed| - d.taken + |Surviving(d.line, ks[..m], 0)| < INPUT_BUF)
  }

  // ---------------------------------------------------------------- single keys

  /** Backspace undoes an ordinary key, and does nothing at the start of a line. */
  lemma BackspaceUndoes(d: Editor, c: int)
    requires Ordinary(c) && Held(d) + 1 < INPUT_BUF
    ensures Typed(Typed(d, c), CTRL_H) == d
    ensures d.line == [] ==> Typed(d, CTRL_H) == d
  {
    assert (d.line + [c])[..|d.line|] == d.line;
  }

  /** The key that fills the ring commits the line; from then on keys are lost until something is read. */
  lemma FullCommits(d: Editor, c: int, more: int)
    requires Ordinary(c) && Held(d) + 1 == INPUT_BUF
    ensures var t := Typed(d, c);
      t == Editor(d.committed + d.line + [c], d.taken, []) && Held(t) == INPUT_BUF && Typed(t, more) == t
  {
    assert d.committed + (d.line + [c]) == d.committed + d.line + [c];
  }

  // ---------------------------------------------------------------- lines

  lemma OneLineLess(d: Editor, ks: seq<int>)
    requires OneLine(d, ks) && ks != []
    ensures OneLine(d, ks[..|ks| - 1])
    ensures |d.committed| - d.taken + |Surviving(d.line, ks, 0)| < INPUT_BUF
  {
    var before := ks[..|ks| - 1];
    forall m | 0 <= m <= |before|
      ensures |d.committed| - d.taken + |Surviving(d.line, before[..m], 0)| < INPUT_BUF
    {
      assert before[..m] == ks[..m];
    }
    assert ks[..|ks|] == ks;
  }

  /** While nothing ends it, the line is what survives of its keys, also once n backspaces more are typed. */
  lemma {:induction false} LineSurvives(d: Editor, ks: seq<int>, n: nat)
    requires OneLine(d, ks)
    ensures TypedAll(d, ks) == d.(line := Surviving(d.line, ks, 0))
    ensures Surviving(d.line, ks, n) == Shorter(Surviving(d.line, ks, 0), n)
    decreases |ks|
  {
    if ks == [] {
      assert ks[..0] == [];
      assert Shorter(d.line, 0) == d.line;
    } else {
      var before, k := ks[..|ks| - 1], ks[|ks| - 1];
      OneLineLess(d, ks);
      LineSurvives(d, before, n);
      LineSurvives(d, before, 1);
      LineSurvives(d, before, n + 1);
      var was := Surviving(d.line, before, 0);
      assert !Ends(k);
      if k == CTRL_H {
        assert Shorter(Shorter(was, 1), n) == Shorter(was, n + 1);
        assert was != [] ==> was[..|was| - 1] == Shorter(was, 1);
      } else if Ordinary(k) {
        if n > 0 {
          LineSurvives(d, before, n - 1);
          assert Shorter(was + [k], n) == Shorter(was, n - 1);
        }
      }
    }
  }

  /**
   A line of keys and a newline or control-D: exactly the keys not erased are committed, in order, with the
   terminator.
   */
  lemma LineCommits(d: Editor, ks: seq<int>, c: int)
    requires d.line == [] && OneLine(d, ks) && Ends(c)
    ensures TypedAll(d, ks + [c]) == Editor(d.committed + Surviving([], ks, 0) + [c], d.taken, [])
  {
    LineSurvives(d, ks, 0);
    assert (ks + [c])[..|ks|] == ks;
    assert ks[..|ks|] == ks;
    var line := Surviving([], ks, 0);
    assert d.committed + (line + [c]) == d.committed + line + [c];
  }

  /** Keys that commit nothing, then control-U: the line is empty and nothing else has changed. */
  lemma {:induction false} KillForgets(d: Editor, ks: seq<int>)
    requires Sound(d) && TypedAll(d, ks).committed == d.committed
    ensures Typed(TypedAll(d, ks), CTRL_U) == d.(line := [])
    decreases |ks|
  {
    if ks != [] {
      var before := ks[..|ks| - 1];
      TypedAllSound(d, before);
      TypedSound(TypedAll(d, before), ks[|ks| - 1]);
      assert TypedAll(d, before).committed == d.committed by {
        SamePrefix(d.committed, TypedAll(d, before).committed, TypedAll(d, ks).committed);
      }
      KillForgets(d, before);
    }
  }

  lemma SamePrefix(a: seq<int>, b: seq<int>, c: seq<int>)
    requires a <= b <= c && c == a
    ensures b == a
  {
  }

  lemma {:induction false} TypedAllSound(d: Editor, ks: seq<int>)
    requires Sound(d)
    ensures Sound(TypedAll(d, ks)) && d.committed <= TypedAll(d, ks).committed && TypedAll(d, ks).taken == d.taken
    decreases |ks|
  {
    if ks != [] {
      TypedAllSound(d, ks[..|ks| - 1]);
      TypedSound(TypedAll(d, ks[..|ks| - 1]), ks[|ks| - 1]);
    }
  }

  /** a, b, backspace, newline. */
  lemma TypoCorrected(d: Editor)
    requires d.line == [] && |d.committed| == d.taken
    ensures TypedAll(d, [97, 98, CTRL_H, NEWLINE]) == Editor(d.committed + [97, NEWLINE], d.taken, [])
  {
    var ks := [97, 98, CTRL_H];
    assert ks[..2] == [97, 98] && [97, 98][..1] == [97] && ks[..1] == [97] && ks[..0] == [] && [97][..0] == [];
    assert Surviving([], ks, 0) == Surviving([], [97, 98], 1) == Surviving([], [97], 0) == [97];
    forall m | 0 <= m <= |ks|
      ensures |Surviving([], ks[..m], 0)| <= 2
    {
      SurvivingBound([], ks[..m], 0);
      assert |Surviving([], ks, 0)| == 1;
      if m == 3 {
        assert ks[..m] == ks;
      }
    }
    assert ks + [NEWLINE] == [97, 98, CTRL_H, NEWLINE];
    LineCommits(d, ks, NEWLINE);
    assert d.committed + [97] + [NEWLINE] == d.committed + [97, NEWLINE];
  }

  lemma {:induction false} SurvivingBound(line: seq<int>, ks: seq<int>, n: nat)
    ensures |Surviving(line, ks, n)| <= |line| + |ks|
    decreases |ks|
  {
    if ks != [] {
      var before := ks[..|ks| - 1];
      SurvivingBound(line, before, n);
      SurvivingBound(line, before, n + 1);
      if n > 0 {
        SurvivingBound(line, before, n - 1);
      }
    }
  }
}
