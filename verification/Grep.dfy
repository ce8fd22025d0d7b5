/** The regular-expression matcher of grep (grep.c) against the language its patterns denote. */
module Grep {
  /** A C string, without its terminator. */
  type CString = s: string | '\0' !in s

  /** The character at i, or the terminator. */
  function At(s: CString, i: nat): char {
    if i < |s| then s[i] else '\0'
  }

  // ---------------------------------------------------------------- what a pattern denotes

  datatype Item = One(c: char) | Star(c: char)

  /** A pattern after its optional '^': items in sequence, and whether a final '$' ties it to the end of the text. */
  datatype Pattern = Pattern(items: seq<Item>, end: bool)

  function Items(re: CString): Pattern
    decreases |re|
  {
    if re == "" then Pattern([], false)
    else if 1 < |re| && re[1] == '*' then
      var rest := Items(re[2..]); Pattern([Star(re[0])] + rest.items, rest.end)
    else if re == "$" then Pattern([], true)
    else
      var rest := Items(re[1..]); Pattern([One(re[0])] + rest.items, rest.end)
  }

  predicate Sat(c: char, x: char) {
    c == '.' || c == x
  }

  /** The words of one item. */
  predicate Word(item: Item, w: string) {
    match item
    case One(c) => |w| == 1 && Sat(c, w[0])
    case Star(c) => forall i :: 0 <= i < |w| ==> Sat(c, w[i])
  }

  /** w is a concatenation of one word for each item, in order. */
  ghost predicate InLanguage(items: seq<Item>, w: string)
    decreases |items|
  {
    if items == [] then w == ""
    else exists k {:trigger w[..k]} :: 0 <= k <= |w| && Word(items[0], w[..k]) && InLanguage(items[1..], w[k..])
  }

  /** The first k characters of the text are a word of the pattern. */
  ghost predicate Through(p: Pattern, text: string, k: int) {
    0 <= k <= |text| && InLanguage(p.items, text[..k]) && (p.end ==> k == |text|)
  }

  /** Some prefix of the text is a word of the pattern. */
  ghost predicate Here(p: Pattern, text: string) {
    exists k {:trigger Through(p, text, k)} :: Through(p, text, k)
  }

  ghost predicate HereFrom(p: Pattern, text: string, i: int) {
    0 <= i <= |text| && Here(p, text[i..])
  }

  /** grep's promise: a leading '^' ties the match to the start of the text, otherwise it may begin anywhere. */
  ghost predicate Matches(re: CString, text: CString) {
    if re != "" && re[0] == '^' then Here(Items(re[1..]), text)
    else exists i {:trigger HereFrom(Items(re), text, i)} :: HereFrom(Items(re), text, i)
  }

  // ---------------------------------------------------------------- one item at a time

  lemma HereNone(end: bool, text: string)
    ensures Here(Pattern([], end), text) <==> !end || text == ""
  {
    var p := Pattern([], end);
    if !end || text == "" {
      assert Through(p, text, 0);
    }
  }

  lemma HereOne(c: char, p: Pattern, text: string)
    ensures Here(Pattern([One(c)] + p.items, p.end), text) <==> text != "" && Sat(c, text[0]) && Here(p, text[1..])
  {
    var q := Pattern([One(c)] + p.items, p.end);
    assert q.items[1..] == p.items;
    if Here(q, text) {
      var k :| Through(q, text, k);
      var w := text[..k];
      var j :| 0 <= j <= |w| && Word(One(c), w[..j]) && InLanguage(p.items, w[j..]);
      assert w[1..] == text[1..][..k - 1];
      assert Through(p, text[1..], k - 1);
    }
    if text != "" && Sat(c, text[0]) && Here(p, text[1..]) {
      var k :| Through(p, text[1..], k);
      var w := text[..k + 1];
      assert w[1..] == text[1..][..k] && w[..1] == [text[0]];
      assert Word(q.items[0], w[..1]) && InLanguage(q.items[1..], w[1..]);
      assert Through(q, text, k + 1);
    }
  }

  /** The first k characters all suit c and the rest of the pattern matches after them. */
  ghost predicate After(c: char, p: Pattern, text: string, k: int) {
    HereFrom(p, text, k) && forall i :: 0 <= i < k ==> Sat(c, text[i])
  }

  lemma HereStar(c: char, p: Pattern, text: string)
    ensures Here(Pattern([Star(c)] + p.items, p.end), text) <==>
      exists k {:trigger After(c, p, text, k)} :: After(c, p, text, k)
  {
    var q := Pattern([Star(c)] + p.items, p.end);
    assert q.items[1..] == p.items;
    if Here(q, text) {
      var n :| Through(q, text, n);
      var w := text[..n];
      var k :| 0 <= k <= |w| && Word(Star(c), w[..k]) && InLanguage(p.items, w[k..]);
      assert w[k..] == text[k..][..n - k];
      assert Through(p, text[k..], n - k);
      forall i | 0 <= i < k
        ensures Sat(c, text[i])
      {
        assert w[..k][i] == text[i];
      }
      assert After(c, p, text, k);
    }
    if k :| After(c, p, text, k) {
      var n :| Through(p, text[k..], n);
      var w := text[..k + n];
      assert w[k..] == text[k..][..n] && w[..k] == text[..k];
      assert Word(q.items[0], w[..k]) && InLanguage(q.items[1..], w[k..]);
      assert Through(q, text, k + n);
    }
  }

  // ---------------------------------------------------------------- the matcher

  /** match: true exactly when the text is in the pattern's language. */
  method Match(re: CString, text: CString) returns (r: bool)
    ensures r <==> Matches(re, text)
  {
    hide Here;
    if At(re, 0) == '^' {
      r := MatchHere(re[1..], text);
      return;
    }
    var t := 0;
    while true
      invariant 0 <= t <= |text|
      invariant forall i {:trigger HereFrom(Items(re), text, i)} :: 0 <= i < t ==> !HereFrom(Items(re), text, i)
      decreases |text| - t
    {
      r := MatchHere(re, text[t..]);
      assert r == HereFrom(Items(re), text, t);
      if r {
        return;
      }
      if At(text, t) == '\0' {
        return false;
      }
      t := t + 1;
    }
  }

  /** matchhere: re at the beginning of the text. */
  method MatchHere(re: CString, text: CString) returns (r: bool)
    ensures r <==> Here(Items(re), text)
    decreases |re|, 0
  {
    hide Here;
    if At(re, 0) == '\0' {
      HereNone(false, text);
      return true;
    }
    if At(re, 1) == '*' {
      HereStar(re[0], Items(re[2..]), text);
      assert Items(re) == Pattern([Star(re[0])] + Items(re[2..]).items, Items(re[2..]).end);
      r := MatchStar(re[0], re[2..], text);
      return;
    }
    if At(re, 0) == '$' && At(re, 1) == '\0' {
      assert re == "$";
      HereNone(true, text);
      return At(text, 0) == '\0';
    }
    HereOne(re[0], Items(re[1..]), text);
    if At(text, 0) != '\0' && (re[0] == '.' || re[0] == text[0]) {
      r := MatchHere(re[1..], text[1..]);
      return;
    }
    return false;
  }

  /** matchstar: c*re at the beginning of the text. */
  method MatchStar(c: char, re: CString, text: CString) returns (r: bool)
    ensures r <==> exists k {:trigger After(c, Items(re), text, k)} :: After(c, Items(re), text, k)
    decreases |re|, 1
  {
    hide Here;
    var t := 0;
    while true
      invariant 0 <= t <= |text| && forall i :: 0 <= i < t ==> Sat(c, text[i])
      invariant forall i {:trigger HereFrom(Items(re), text, i)} :: 0 <= i < t ==> !HereFrom(Items(re), text, i)
      decreases |text| - t
    {
      r := MatchHere(re, text[t..]);
      assert r == HereFrom(Items(re), text, t);
      if r {
        assert After(c, Items(re), text, t);
        return;
      }
      if At(text, t) == '\0' || !(text[t] == c || c == '.') {
        return false;
      }
      t := t + 1;
    }
  }

  // ---------------------------------------------------------------- what patterns mean

  /** A text without characters that are special in a pattern. */
  predicate Plain(w: string) {
    forall i {:trigger w[i]} :: 0 <= i < |w| ==>
      w[i] != '.' && w[i] != '*' && w[i] != '$' && w[i] != '^' && w[i] != '\0'
  }

  function Ones(w: string): (r: seq<Item>)
    ensures |r| == |w|
    decreases |w|
  {
    if w == "" then [] else [One(w[0])] + Ones(w[1..])
  }

  lemma {:induction false} PlainItems(w: string, tail: CString)
    requires Plain(w) && (tail == "" || tail == "$") && '\0' !in w + tail
    ensures Items(w + tail) == Pattern(Ones(w), tail == "$")
    decreases |w|
  {
    if w == "" {
      assert w + tail == tail;
    } else {
      assert (w + tail)[1..] == w[1..] + tail;
      assert forall i {:trigger w[1..][i]} :: 0 <= i < |w| - 1 ==> w[1..][i] == w[i + 1];
      assert 1 < |w + tail| ==> (w + tail)[1] == (if 1 < |w| then w[1] else '$');
      PlainItems(w[1..], tail);
    }
  }

  lemma {:induction false} OnesLanguage(w: string, x: string)
    requires Plain(w)
    ensures InLanguage(Ones(w), x) <==> x == w
    decreases |w|
  {
    if w != "" {
      assert forall i {:trigger w[1..][i]} :: 0 <= i < |w| - 1 ==> w[1..][i] == w[i + 1];
      assert Ones(w)[1..] == Ones(w[1..]);
      if x != "" {
        OnesLanguage(w[1..], x[1..]);
        assert x[..1] == [x[0]] && x == [x[0]] + x[1..] && w == [w[0]] + w[1..];
      }
    }
  }

  /** w occurs in the text at i. */
  predicate OccursAt(w: string, text: string, i: int) {
    0 <= i && i + |w| <= |text| && text[i..i + |w|] == w
  }

  lemma PlainHere(w: string, end: bool, text: string)
    requires Plain(w)
    ensures Here(Pattern(Ones(w), end), text) <==> if end then text == w else OccursAt(w, text, 0)
  {
    var p := Pattern(Ones(w), end);
    forall k | 0 <= k <= |text|
      ensures InLanguage(p.items, text[..k]) <==> text[..k] == w
    {
      OnesLanguage(w, text[..k]);
    }
    assert text[..|text|] == text;
    if OccursAt(w, text, 0) && (end ==> text == w) {
      assert Through(p, text, |w|);
    }
  }

  /** A plain pattern matches exactly the texts it occurs in. */
  lemma PlainMatches(w: CString, text: CString)
    requires Plain(w)
    ensures Matches(w, text) <==> exists i {:trigger OccursAt(w, text, i)} :: OccursAt(w, text, i)
  {
    hide Here;
    assert w + "" == w;
    PlainItems(w, "");
    forall i | 0 <= i <= |text|
      ensures HereFrom(Items(w), text, i) <==> OccursAt(w, text, i)
    {
      PlainHere(w, false, text[i..]);
      assert i + |w| <= |text| ==> text[i..][..|w|] == text[i..i + |w|];
    }
  }

  /** Between '^' and '$' it matches exactly itself. */
  lemma WholeLine(w: CString, text: CString)
    requires Plain(w) && '\0' !in "^" + w + "$"
    ensures Matches("^" + w + "$", text) <==> text == w
  {
    hide Here;
    assert ("^" + w + "$")[1..] == w + "$";
    PlainItems(w, "$");
    PlainHere(w, true, text);
  }

  /** "^c*$" matches exactly the texts of c alone, and with '.' for c every text. */
  lemma StarLine(c: char, text: CString)
    requires c != '\0' && c != '*'
    ensures Matches("^" + [c] + "*$", text) <==> c == '.' || forall i {:trigger text[i]} :: 0 <= i < |text| ==>
      text[i] == c
  {
    hide Here;
    var re := "^" + [c] + "*$";
    assert re[1..] == [c] + "*$" && ([c] + "*$")[2..] == "$";
    assert Items("$") == Pattern([], true);
    assert [Star(c)] + [] == [Star(c)];
    assert Items(re[1..]) == Pattern([Star(c)], true);
    HereStar(c, Pattern([], true), text);
    forall k | 0 <= k <= |text|
      ensures HereFrom(Pattern([], true), text, k) <==> k == |text|
    {
      HereNone(true, text[k..]);
    }
    if c == '.' || forall i {:trigger text[i]} :: 0 <= i < |text| ==> text[i] == c {
      assert After(c, Pattern([], true), text, |text|);
    }
  }
}
