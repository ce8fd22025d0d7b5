/**
 Every way to write a command down (sh.c): white space anywhere between tokens, either arrow for an output
 redirection, redirections before, between and after the words. parsecmd accepts exactly these texts and gives
 each its command.
 */
module ShellRenders {
  import opened ShellSpec
  import opened ShellProofs

  // ---------------------------------------------------------------- texts

  predicate Blank(g: string) {
    forall i {:trigger g[i]} :: 0 <= i < |g| ==> IsSpace(g[i])
  }

  datatype Arrow = In | Out | More

  /** A word or a redirection, with the white space before it and behind the arrow. */
  datatype Item =
    | Word(gap: string, word: string)
    | Redirect(gap: string, arrow: Arrow, gap2: string, file: string)

  datatype Syntax =
    | Simple(items: seq<Item>)                                           // echo hi >f
    | Block(gap: string, line: Syntax, close: string, redirs: seq<Item>) // (line) >f
    | Piped(left: Syntax, gap: string, right: Syntax)                    // left | right
    | Job(body: Syntax, gap: string)                                     // body &
    | Then(left: Syntax, gap: string, right: Syntax)                     // left ; right

  function ArrowText(a: Arrow): string {
    match a
    case In => "<"
    case Out => ">"
    case More => ">>"
  }

  function ItemText(i: Item): string {
    match i
    case Word(gap, word) => gap + word
    case Redirect(gap, arrow, gap2, file) => gap + (ArrowText(arrow) + (gap2 + file))
  }

  function ItemsText(items: seq<Item>): string
    decreases |items|
  {
    if items == [] then "" else ItemText(items[0]) + ItemsText(items[1..])
  }

  function Text(t: Syntax): string {
    match t
    case Simple(items) => ItemsText(items)
    case Block(gap, line, close, redirs) => gap + ("(" + (Text(line) + (close + (")" + ItemsText(redirs)))))
    case Piped(l, gap, r) => Text(l) + (gap + ("|" + Text(r)))
    case Job(b, gap) => Text(b) + (gap + "&")
    case Then(l, gap, r) => Text(l) + (gap + (";" + Text(r)))
  }

  predicate GoodItem(i: Item) {
    match i
    case Word(gap, word) => Blank(gap) && IsWord(word)
    case Redirect(gap, arrow, gap2, file) => Blank(gap) && Blank(gap2) && IsWord(file)
  }

  /**
   A word is set off by white space from a word or file name before it; after says that there is one before the
   first.
   */
  predicate GoodItems(items: seq<Item>, after: bool) {
    forall i {:trigger items[i]} :: 0 <= i < |items| ==>
      GoodItem(items[i]) && (items[i].Word? && (after || 0 < i) ==> items[i].gap != "")
  }

  predicate AllRedirects(items: seq<Item>) {
    forall i {:trigger items[i]} :: 0 <= i < |items| ==> items[i].Redirect?
  }

  /** How loosely the text binds. */
  function Tier(t: Syntax): nat {
    match t
    case Simple(_) => 0
    case Block(_, _, _, _) => 0
    case Piped(_, _, _) => 1
    case Job(_, _) => 2
    case Then(_, _, _) => 3
  }

  predicate Good(t: Syntax) {
    match t
    case Simple(items) => GoodItems(items, false) && |WordsOf(items)| < MAXARGS
    case Block(gap, line, close, redirs) =>
      Blank(gap) && Good(line) && Blank(close) && GoodItems(redirs, false) && AllRedirects(redirs)
    case Piped(l, gap, r) => Good(l) && Tier(l) == 0 && Blank(gap) && Good(r) && Tier(r) <= 1
    case Job(b, gap) => Good(b) && Tier(b) <= 2 && Blank(gap)
    case Then(l, gap, r) => Good(l) && Tier(l) <= 2 && Blank(gap) && Good(r)
  }

  // ---------------------------------------------------------------- what a text means

  function WordsOf(items: seq<Item>): seq<string>
    decreases |items|
  {
    if items == [] then [] else (if items[0].Word? then [items[0].word] else []) + WordsOf(items[1..])
  }

  /** The command with the redirections among the items around it, the first of them innermost. */
  function Around(c: Cmd<string>, items: seq<Item>): Cmd<string>
    decreases |items|
  {
    if items == [] then c
    else
      var last, inner := items[|items| - 1], Around(c, items[..|items| - 1]);
      if last.Word? then inner
      else if last.arrow == In then Redir(inner, last.file, 0, 0)
      else Redir(inner, last.file, 0x201, 1)
  }

  function Meaning(t: Syntax): Cmd<string> {
    match t
    case Simple(items) => Around(Exec(WordsOf(items)), items)
    case Block(_, line, _, redirs) => Around(Meaning(line), redirs)
    case Piped(l, _, r) => Pipe(Meaning(l), Meaning(r))
    case Job(b, _) => Back(Meaning(b))
    case Then(l, _, r) => List(Meaning(l), Meaning(r))
  }

  ghost predicate IsText(t: Syntax, tail: string, c: Cmd<string>, s: string) {
    Good(t) && Blank(tail) && Meaning(t) == c && s == Text(t) + tail
  }

  /** s is a way to write c. */
  ghost predicate Renders(c: Cmd<string>, s: string) {
    exists t, tail {:trigger IsText(t, tail, c, s)} :: IsText(t, tail, c, s)
  }

  // ---------------------------------------------------------------- white space

  lemma {:induction false} TrimBlank(g: string, x: string)
    requires Blank(g)
    ensures Trim(g + x) == Trim(x)
    decreases |g|
  {
    if g == "" {
      assert g + x == x;
    } else {
      assert (g + x)[1..] == g[1..] + x && (g + x)[0] == g[0];
      TrimBlank(g[1..], x);
    }
  }

  lemma {:induction false} TrimGap(x: string) returns (g: string)
    ensures Blank(g) && x == g + Trim(x)
    decreases |x|
  {
    if x != "" && IsSpace(x[0]) {
      var h := TrimGap(x[1..]);
      g := [x[0]] + h;
      assert x == [x[0]] + x[1..];
    } else {
      g := "";
    }
  }

  /** Input at which a command, a pipeline or a line ends. */
  predicate Ends(post: string, toks: string) {
    Follows(Trim(post), toks)
  }

  lemma EndsBreaks(post: string)
    requires Ends(post, "|)&;")
    ensures Breaks(post)
  {
  }

  lemma SymbolEnds(g: string, c: char, rest: string)
    requires Blank(g) && IsSymbol(c)
    ensures Trim(g + ([c] + rest)) == [c] + rest && ([c] + rest)[0] == c && ([c] + rest)[1..] == rest
  {
    TrimBlank(g, [c] + rest);
    SymbolTrim(c, rest);
  }

  lemma Regroup3(a: string, b: string, c: string)
    ensures a + b + c == a + (b + c)
  {
  }

  // ---------------------------------------------------------------- the items as redirections

  function ToOf(i: Item): (r: To<string>)
    requires i.Redirect?
  {
    if i.arrow == In then To(i.file, 0, 0) else To(i.file, 0x201, 1)
  }

  function Tos(items: seq<Item>): seq<To<string>>
    decreases |items|
  {
    if items == [] then [] else (if items[0].Redirect? then [ToOf(items[0])] else []) + Tos(items[1..])
  }

  lemma {:induction false} TosMore(items: seq<Item>, i: Item)
    ensures Tos(items + [i]) == Tos(items) + (if i.Redirect? then [ToOf(i)] else [])
    decreases |items|
  {
    if items == [] {
      assert items + [i] == [i];
      assert [i][1..] == [];
    } else {
      assert (items + [i])[1..] == items[1..] + [i] && (items + [i])[0] == items[0];
      TosMore(items[1..], i);
    }
  }

  lemma {:induction false} AroundWraps(c: Cmd<string>, items: seq<Item>)
    ensures Around(c, items) == Wrap(c, Tos(items))
    decreases |items|
  {
    if items != [] {
      var last, init := items[|items| - 1], items[..|items| - 1];
      assert items == init + [last];
      AroundWraps(c, init);
      TosMore(init, last);
      if last.Redirect? {
        WrapMore(c, Tos(init), ToOf(last));
      } else {
        assert Tos(init) + [] == Tos(init);
      }
    }
  }

  /** The redirections at the front, and the items behind them. */
  function LeadTos(items: seq<Item>): seq<To<string>>
    decreases |items|
  {
    if items != [] && items[0].Redirect? then [ToOf(items[0])] + LeadTos(items[1..]) else []
  }

  function Behind(items: seq<Item>): (r: seq<Item>)
    ensures |r| <= |items| && (r == [] || r[0].Word?)
    decreases |items|
  {
    if items != [] && items[0].Redirect? then Behind(items[1..]) else items
  }

  lemma {:induction false} BehindSplits(items: seq<Item>, after: bool)
    requires GoodItems(items, after)
    ensures Tos(items) == LeadTos(items) + Tos(Behind(items)) && WordsOf(items) == WordsOf(Behind(items))
    ensures GoodItems(Behind(items), after) && (AllRedirects(items) ==> Behind(items) == [])
    decreases |items|
  {
    if items != [] && items[0].Redirect? {
      GoodTail(items, after);
      BehindSplits(items[1..], true);
      GoodLess(Behind(items), after);
    }
  }

  lemma GoodTail(items: seq<Item>, after: bool)
    requires GoodItems(items, after) && items != []
    ensures GoodItem(items[0]) && GoodItems(items[1..], true)
    ensures items[0].Word? && after ==> items[0].gap != ""
  {
  }

  lemma GoodLess(items: seq<Item>, after: bool)
    requires GoodItems(items, true)
    ensures GoodItems(items, after)
  {
  }

  // ---------------------------------------------------------------- every text is parsed

  lemma ItemsBreak(items: seq<Item>, post: string)
    requires GoodItems(items, true) && Ends(post, "|)&;")
    ensures Breaks(ItemsText(items) + post)
  {
    EndsBreaks(post);
    if items == [] {
      assert ItemsText(items) + post == post;
    } else {
      GoodTail(items, true);
      var s, i := ItemsText(items) + post, items[0];
      if i.gap != "" {
        assert s[0] == i.gap[0];
      } else {
        assert s[0] == ArrowText(i.arrow)[0];
      }
    }
  }

  /** An arrow and what follows it. */
  lemma ArrowToken(a: Arrow, g: string, w: string, more: string)
    requires Blank(g) && IsWord(w)
    ensures var s := ArrowText(a) + (g + (w + more));
      && Trim(s) == s && StartsWith(s, "<>")
      && Token(s) == (if a == More then Append else Sym(ArrowText(a)[0]), w + more)
  {
    var x := g + (w + more);
    var s := ArrowText(a) + x;
    FirstChar(w, more);
    TrimBlank(g, w + more);
    assert Trim(x) == w + more;
    assert x[0] != '>';
    match a {
      case In => assert s[1..] == x;
      case Out => assert s[1..] == x && s[1] == x[0];
      case More => assert s[2..] == x;
    }
  }

  lemma RedirsItem(i: Item, more: string)
    requires i.Redirect? && GoodItem(i) && Breaks(more) && Redirs(more).Ok?
    ensures Redirs(ItemText(i) + more) == Ok([ToOf(i)] + Redirs(more).value, Redirs(more).rest)
  {
    hide Token, Trim, Breaks, IsWord, IsWordChar, Blank;
    var t := ArrowText(i.arrow) + (i.gap2 + (i.file + more));
    assert ItemText(i) + more == i.gap + t;
    TrimBlank(i.gap, t);
    ArrowToken(i.arrow, i.gap2, i.file, more);
    TokenWord(i.file, more);
    TrimFirst(more);
    FirstChar(i.file, more);
  }

  lemma FirstText(items: seq<Item>, post: string)
    requires items != []
    ensures ItemsText(items) + post == ItemText(items[0]) + (ItemsText(items[1..]) + post)
  {
    hide ItemText;
    Regroup3(ItemText(items[0]), ItemsText(items[1..]), post);
  }

  lemma NoArrow(s: string)
    requires !StartsWith(Trim(s), "<>")
    ensures Redirs(s) == Ok([], Trim(s))
  {
  }

  lemma WordFirst(w: string, more: string)
    requires IsWord(w)
    ensures Trim(w + more) == w + more && !StartsWith(w + more, "<>") && !StartsWith(w + more, "(")
  {
    FirstChar(w, more);
  }

  lemma EndFirst(post: string)
    requires Ends(post, "|)&;")
    ensures !StartsWith(Trim(post), "<>") && !StartsWith(Trim(post), "(")
  {
  }

  /** Before a word or at the end of a command there is no redirection. */
  lemma NoRedirect(items: seq<Item>, post: string)
    requires GoodItems(items, false) && Ends(post, "|)&;") && (items == [] || items[0].Word?)
    ensures var s := ItemsText(items) + post;
      Redirs(s) == Ok([], Trim(s)) && !StartsWith(Trim(s), "(")
  {
    hide Redirs, Trim, StartsWith, Blank, IsWord, Ends, ItemsText, GoodItems;
    var s := ItemsText(items) + post;
    if items == [] {
      NothingBehind(post);
      EndFirst(post);
    } else {
      GoodTail(items, false);
      var more := ItemsText(items[1..]) + post;
      FirstText(items, post);
      Regroup3(items[0].gap, items[0].word, more);
      TrimBlank(items[0].gap, items[0].word + more);
      WordFirst(items[0].word, more);
    }
    NoArrow(s);
  }

  lemma {:induction false} RedirsItems(items: seq<Item>, post: string)
    requires GoodItems(items, false) && Ends(post, "|)&;")
    ensures Redirs(ItemsText(items) + post) == Ok(LeadTos(items), Trim(ItemsText(Behind(items)) + post))
    ensures !StartsWith(Trim(ItemsText(items) + post), "(")
    decreases |items|
  {
    if items != [] && items[0].Redirect? {
      hide Redirs, Trim, Breaks, GoodItems, ToOf;
      GoodTail(items, false);
      GoodLess(items[1..], false);
      var more := ItemsText(items[1..]) + post;
      RedirsItems(items[1..], post);
      ItemsBreak(items[1..], post);
      RedirsItem(items[0], more);
      Regroup3(ItemText(items[0]), ItemsText(items[1..]), post);
      ItemNoBlock(items[0], more);
    } else {
      hide Redirs, Trim, Breaks, GoodItems;
      NoRedirect(items, post);
    }
  }

  lemma ItemNoBlock(i: Item, more: string)
    requires i.Redirect? && GoodItem(i)
    ensures !StartsWith(Trim(ItemText(i) + more), "(")
  {
    var t := ArrowText(i.arrow) + (i.gap2 + (i.file + more));
    assert ItemText(i) + more == i.gap + t;
    TrimBlank(i.gap, t);
    ArrowToken(i.arrow, i.gap2, i.file, more);
  }

  lemma ArgsNone(post: string, have: nat)
    requires Ends(post, "|)&;")
    ensures Args(post, have) == Ok(([], []), Trim(post))
  {
    TrimTwice(post);
  }

  lemma ArgsWord(i: Item, more: string, have: nat)
    requires i.Word? && GoodItem(i) && Breaks(more) && have + 1 < MAXARGS && Redirs(more).Ok?
    requires Args(Redirs(more).rest, have + 1).Ok?
    ensures var next := Args(Redirs(more).rest, have + 1);
      Args(ItemText(i) + more, have) == Ok(([i.word] + next.value.0, Redirs(more).value + next.value.1), next.rest)
  {
    hide Token, Breaks, IsWord, IsWordChar, Blank, Redirs;
    Regroup3(i.gap, i.word, more);
    TrimBlank(i.gap, i.word + more);
    TokenWord(i.word, more);
    hide Trim;
    TrimFirst(more);
    FirstChar(i.word, more);
    WordNoStop(i.word, more);
  }

  lemma WordNoStop(w: string, more: string)
    requires IsWord(w)
    ensures !StartsWith(w + more, "|)&;")
  {
    FirstChar(w, more);
  }

  lemma {:induction false} ArgsItems(items: seq<Item>, post: string, have: nat)
    requires GoodItems(items, false) && Ends(post, "|)&;") && (items == [] || items[0].Word?)
    requires have + |WordsOf(items)| < MAXARGS
    ensures Args(ItemsText(items) + post, have) == Ok((WordsOf(items), Tos(items)), Trim(post))
    decreases |items|
  {
    hide Redirs, Trim, Breaks, GoodItems, Args, ToOf;
    if items == [] {
      assert ItemsText(items) + post == post;
      ArgsNone(post, have);
    } else {
      GoodTail(items, false);
      GoodLess(items[1..], false);
      var rest := items[1..];
      var more := ItemsText(rest) + post;
      ItemsBreak(rest, post);
      RedirsItems(rest, post);
      BehindSplits(rest, false);
      ArgsItems(Behind(rest), post, have + 1);
      TrimArgs(ItemsText(Behind(rest)) + post, have + 1);
      ArgsWord(items[0], more, have);
      Regroup3(ItemText(items[0]), ItemsText(rest), post);
      assert [] + Tos(rest) == Tos(rest);
    }
  }

  lemma SimpleParsed(items: seq<Item>, post: string)
    requires GoodItems(items, false) && |WordsOf(items)| < MAXARGS && Ends(post, "|)&;")
    ensures ParseExec(ItemsText(items) + post) == Ok(Around(Exec(WordsOf(items)), items), Trim(post))
  {
    hide Redirs, Trim, GoodItems, Args, Wrap, Around, Tos, LeadTos, WordsOf, Behind, ItemsText;
    var s := ItemsText(items) + post;
    RedirsItems(items, post);
    TrimFirst(s);
    BehindSplits(items, false);
    ArgsItems(Behind(items), post, 0);
    TrimArgs(ItemsText(Behind(items)) + post, 0);
    AroundWraps(Exec(WordsOf(items)), items);
  }

  lemma BlockParsed(gap: string, inner: string, close: string, redirs: seq<Item>, b: Cmd<string>, post: string)
    requires Blank(gap) && Blank(close) && GoodItems(redirs, false) && AllRedirects(redirs) && Ends(post, "|)&;")
    requires var tail := close + (")" + (ItemsText(redirs) + post)); ParseLine(inner + tail) == Ok(b, Trim(tail))
    ensures ParseExec(gap + ("(" + (inner + (close + (")" + (ItemsText(redirs) + post)))))) ==
      Ok(Around(b, redirs), Trim(post))
  {
    hide Redirs, Trim, GoodItems, AllRedirects, Args, Wrap, Around, ParseLine, Tos, LeadTos, Behind, ItemsText, Blank;
    var after := ItemsText(redirs) + post;
    var tail := close + (")" + after);
    SymbolEnds(gap, '(', inner + tail);
    SymbolEnds(close, ')', after);
    SymbolTrim(')', after);
    SymbolTrim('(', inner + tail);
    TrimFirst(inner + tail);
    TrimFirst(after);
    RedirsItems(redirs, post);
    BehindSplits(redirs, false);
    AroundWraps(b, redirs);
    NothingBehind(post);
    assert LeadTos(redirs) + [] == LeadTos(redirs);
  }

  lemma NothingBehind(post: string)
    ensures ItemsText([]) + post == post && Tos([]) == []
  {
  }

  lemma ExecParsed(t: Syntax, post: string)
    requires Good(t) && Tier(t) == 0 && Ends(post, "|)&;")
    ensures ParseExec(Text(t) + post) == Ok(Meaning(t), Trim(post))
    decreases t, 0
  {
    hide ParseExec, ParseLine, GoodItems, AllRedirects, Around, Trim, Blank, ItemsText, WordsOf, Ends;
    match t {
      case Simple(items) => SimpleParsed(items, post);
      case Block(gap, line, close, redirs) =>
        var tail := close + (")" + (ItemsText(redirs) + post));
        CloseEnds(close, ItemsText(redirs) + post);
        LineParsed(line, tail);
        BlockParsed(gap, Text(line), close, redirs, Meaning(line), post);
        BlockText(gap, Text(line), close, ItemsText(redirs), post);
    }
  }

  lemma BlockText(gap: string, inner: string, close: string, redirs: string, post: string)
    ensures gap + ("(" + (inner + (close + (")" + redirs)))) + post ==
      gap + ("(" + (inner + (close + (")" + (redirs + post)))))
  {
  }

  lemma CloseEnds(close: string, rest: string)
    requires Blank(close)
    ensures Ends(close + (")" + rest), ")")
  {
    SymbolEnds(close, ')', rest);
  }

  lemma WiderEnds(post: string)
    ensures Ends(post, ")") ==> Ends(post, "&;)")
    ensures Ends(post, "&;)") ==> Ends(post, "|)&;") && !StartsWith(Trim(post), "|")
  {
  }

  lemma PipeParsed(t: Syntax, post: string)
    requires Good(t) && Tier(t) <= 1 && Ends(post, "&;)")
    ensures ParsePipe(Text(t) + post) == Ok(Meaning(t), Trim(post))
    decreases t, 1
  {
    hide ParseExec, Trim, Blank, Ends, GoodItems, AllRedirects, Around, WordsOf, ItemsText;
    WiderEnds(post);
    TrimTwice(post);
    if t.Piped? {
      var tail := Text(t.right) + post;
      PipeEnds(t.gap, tail);
      ExecParsed(t.left, t.gap + ("|" + tail));
      InfixText(Text(t.left), t.gap, "|", Text(t.right), post);
      SymbolEnds(t.gap, '|', tail);
      SymbolTrim('|', tail);
      TrimFirst(tail);
      PipeParsed(t.right, post);
    } else {
      ExecParsed(t, post);
    }
  }

  lemma PipeEnds(gap: string, tail: string)
    requires Blank(gap)
    ensures Ends(gap + ("|" + tail), "|)&;")
  {
    SymbolEnds(gap, '|', tail);
  }

  lemma InfixText(a: string, gap: string, op: string, b: string, post: string)
    ensures a + (gap + (op + b)) + post == a + (gap + (op + (b + post)))
    ensures a + (gap + op) + post == a + (gap + (op + post))
  {
  }

  lemma JobParsed(t: Syntax, post: string)
    requires Good(t) && Tier(t) <= 2 && Ends(post, "&;)")
    ensures var p := ParsePipe(Text(t) + post); p.Ok? && Backs(p.value, p.rest) == Backs(Meaning(t), post)
    decreases t, 2
  {
    hide ParsePipe, Trim, Blank, Ends, GoodItems, AllRedirects, Around, WordsOf, ItemsText;
    if t.Job? {
      JobEnds(t.gap, post);
      InfixText(Text(t.body), t.gap, "&", "", post);
      SymbolEnds(t.gap, '&', post);
      SymbolTrim('&', post);
      JobParsed(t.body, t.gap + ("&" + post));
      BacksTrimmed(Back(Meaning(t.body)), post);
    } else {
      PipeParsed(t, post);
      BacksTrimmed(Meaning(t), post);
    }
  }

  lemma BacksTrimmed(c: Cmd<string>, s: string)
    ensures Backs(c, Trim(s)) == Backs(c, s)
  {
    TrimTwice(s);
  }

  lemma JobEnds(gap: string, post: string)
    requires Blank(gap)
    ensures Ends(gap + ("&" + post), "&;)") && Ends(gap + (";" + post), "&;)")
  {
    SymbolEnds(gap, '&', post);
    SymbolEnds(gap, ';', post);
  }

  lemma LineParsed(t: Syntax, post: string)
    requires Good(t) && Ends(post, ")")
    ensures ParseLine(Text(t) + post) == Ok(Meaning(t), Trim(post))
    decreases t, 3
  {
    hide ParsePipe, Blank, Ends, GoodItems, AllRedirects, Around, WordsOf, ItemsText;
    WiderEnds(post);
    if t.Then? {
      var tail := Text(t.right) + post;
      JobEnds(t.gap, tail);
      InfixText(Text(t.left), t.gap, ";", Text(t.right), post);
      JobParsed(t.left, t.gap + (";" + tail));
      SymbolEnds(t.gap, ';', tail);
      SymbolTrim(';', tail);
      hide Trim;
      TrimFirst(tail);
      LineParsed(t.right, post);
    } else {
      JobParsed(t, post);
      EndsLine(Meaning(t), post);
    }
  }

  lemma EndsLine(c: Cmd<string>, post: string)
    requires Ends(post, ")")
    ensures Backs(c, post) == (c, Trim(post)) && !StartsWith(Trim(post), ";")
  {
  }

  // ---------------------------------------------------------------- nothing else is

  lemma {:induction false} TrimEmpty(x: string)
    requires Trim(x) == ""
    ensures Blank(x)
    decreases |x|
  {
    if x != "" {
      TrimEmpty(x[1..]);
      assert x == [x[0]] + x[1..];
    }
  }

  /** A word at the front, as gettoken finds it: the white space, the word, and what breaks it off. */
  lemma WordSplit(x: string) returns (g: string, w: string, y: string)
    requires Token(x).0.Arg?
    ensures Blank(g) && IsWord(w) && x == g + (w + y) && Breaks(y) && Token(x) == (Arg(w), Trim(y))
    ensures Breaks(x) ==> g != ""
  {
    g := TrimGap(x);
    var t := Trim(x);
    w, y := t[..WordLen(t)], t[WordLen(t)..];
    WordLenWord(t);
    WordLenStops(t);
    assert t == w + y;
    assert g == "" ==> x == t;
  }

  /** An arrow at the front, and what is behind it. */
  lemma ArrowSplit(x: string) returns (g: string, a: Arrow, y: string)
    requires StartsWith(Trim(x), "<>")
    ensures Blank(g) && x == g + (ArrowText(a) + y)
      && Token(Trim(x)) == (if a == More then Append else Sym(ArrowText(a)[0]), Trim(y))
  {
    g := TrimGap(x);
    var t := Trim(x);
    TrimTwice(x);
    if t[0] == '<' {
      a, y := In, t[1..];
    } else if 1 < |t| && t[1] == '>' {
      a, y := More, t[2..];
    } else {
      a, y := Out, t[1..];
    }
    assert t == ArrowText(a) + y;
  }

  lemma TokenTrims(x: string)
    ensures Token(Trim(x)) == Token(x)
  {
    TrimTwice(x);
  }

  lemma ItemsCons(i: Item, items: seq<Item>)
    ensures ItemsText([i] + items) == ItemText(i) + ItemsText(items)
    ensures Tos([i] + items) == (if i.Redirect? then [ToOf(i)] else []) + Tos(items)
    ensures WordsOf([i] + items) == (if i.Word? then [i.word] else []) + WordsOf(items)
  {
    assert ([i] + items)[1..] == items;
  }

  lemma GoodCons(i: Item, items: seq<Item>, after: bool)
    requires GoodItem(i) && GoodItems(items, true) && (i.Word? && after ==> i.gap != "")
    ensures GoodItems([i] + items, after)
  {
  }

  lemma RedirsStep(x: string)
    requires StartsWith(Trim(x), "<>")
    ensures var op := Token(Trim(x));
      var file := Token(op.1);
      Redirs(x) == if !file.0.Arg? || Redirs(file.1).Panic? then Panic
        else Ok([To(file.0.word, Mode(op.0), Fd(op.0))] + Redirs(file.1).value, Redirs(file.1).rest)
  {
  }

  /** The first redirection, as it stands in the text. */
  lemma FoundRedirect(x: string) returns (i: Item, rest: string)
    requires Redirs(x).Ok? && StartsWith(Trim(x), "<>")
    ensures i.Redirect? && GoodItem(i) && x == ItemText(i) + rest && |rest| < |x| && Breaks(rest)
    ensures Redirs(rest).Ok? && Redirs(x) == Ok([ToOf(i)] + Redirs(rest).value, Redirs(rest).rest)
  {
    hide Breaks, IsWord, Blank, Token, Trim, Redirs, StartsWith;
    RedirsStep(x);
    var g, a, z := ArrowSplit(x);
    TokenTrims(z);
    var g2, w, y := WordSplit(z);
    TrimFirst(y);
    i, rest := Redirect(g, a, g2, w), y;
    assert x == ItemText(i) + rest;
    assert |ItemText(i)| > 0;
  }

  /** The redirections the parser finds, as they stand in the text. */
  lemma {:induction false} FoundRedirs(x: string) returns (items: seq<Item>, y: string)
    requires Redirs(x).Ok?
    ensures GoodItems(items, true) && AllRedirects(items) && x == ItemsText(items) + y && |y| <= |x|
    ensures Tos(items) == Redirs(x).value && WordsOf(items) == [] && Trim(y) == Redirs(x).rest
    ensures Breaks(x) || items != [] ==> Breaks(y)
    decreases |x|
  {
    hide Breaks, Trim, GoodItems, GoodItem, ToOf, ItemText;
    if !StartsWith(Trim(x), "<>") {
      items, y := [], x;
      NoneGood();
      NoArrow(x);
    } else {
      hide Redirs;
      var i, rest := FoundRedirect(x);
      var more, end := FoundRedirs(rest);
      items, y := [i] + more, end;
      GoodCons(i, more, true);
      ItemsCons(i, more);
      Regroup3(ItemText(i), ItemsText(more), y);
    }
  }

  lemma NoneGood()
    ensures GoodItems([], true) && AllRedirects([]) && ItemsText([]) == "" && Tos([]) == [] && WordsOf([]) == []
  {
  }

  lemma ItemsConcat(a: seq<Item>, b: seq<Item>)
    ensures ItemsText(a + b) == ItemsText(a) + ItemsText(b) && Tos(a + b) == Tos(a) + Tos(b)
    ensures WordsOf(a + b) == WordsOf(a) + WordsOf(b)
  {
    hide ItemsText, Tos, WordsOf;
    TextConcat(a, b);
    TosConcat(a, b);
    WordsConcat(a, b);
  }

  lemma {:induction false} TextConcat(a: seq<Item>, b: seq<Item>)
    ensures ItemsText(a + b) == ItemsText(a) + ItemsText(b)
    decreases |a|
  {
    hide ItemText;
    if a == [] {
      assert a + b == b;
    } else {
      assert (a + b)[1..] == a[1..] + b && (a + b)[0] == a[0];
      TextConcat(a[1..], b);
      Regroup3(ItemText(a[0]), ItemsText(a[1..]), ItemsText(b));
    }
  }

  lemma {:induction false} TosConcat(a: seq<Item>, b: seq<Item>)
    ensures Tos(a + b) == Tos(a) + Tos(b)
    decreases |a|
  {
    hide ToOf;
    if a == [] {
      assert a + b == b;
    } else {
      assert (a + b)[1..] == a[1..] + b && (a + b)[0] == a[0];
      TosConcat(a[1..], b);
      var one := if a[0].Redirect? then [ToOf(a[0])] else [];
      assert one + Tos(a[1..]) + Tos(b) == one + (Tos(a[1..]) + Tos(b));
    }
  }

  lemma {:induction false} WordsConcat(a: seq<Item>, b: seq<Item>)
    ensures WordsOf(a + b) == WordsOf(a) + WordsOf(b)
    decreases |a|
  {
    if a == [] {
      assert a + b == b;
    } else {
      assert (a + b)[1..] == a[1..] + b && (a + b)[0] == a[0];
      WordsConcat(a[1..], b);
      var one := if a[0].Word? then [a[0].word] else [];
      assert one + WordsOf(a[1..]) + WordsOf(b) == one + (WordsOf(a[1..]) + WordsOf(b));
    }
  }

  lemma GoodConcat(a: seq<Item>, b: seq<Item>, after: bool)
    requires GoodItems(a, after) && GoodItems(b, after || a != [])
    ensures GoodItems(a + b, after)
  {
  }

  /** The first word, as it stands in the text. */
  lemma FoundWord(x: string, have: nat) returns (i: Item, rest: string)
    requires Args(x, have).Ok? && !StartsWith(Trim(x), "|)&;") && Token(x).0 != End
    ensures i.Word? && GoodItem(i) && (Breaks(x) ==> i.gap != "") && x == ItemText(i) + rest && |rest| < |x|
      && Breaks(rest)
    ensures Redirs(rest).Ok? && Args(Redirs(rest).rest, have + 1).Ok?
    ensures var next := Args(Redirs(rest).rest, have + 1);
      Args(x, have) == Ok(([i.word] + next.value.0, Redirs(rest).value + next.value.1), next.rest)
  {
    hide Breaks, IsWord, Blank, Redirs;
    TokenTrims(x);
    TrimTwice(x);
    assert Token(x).0.Arg?;
    var g, w, y := WordSplit(x);
    TrimFirst(y);
    hide Trim, Token;
    i, rest := Word(g, w), y;
    Regroup3(g, w, y);
    NotEmpty(w);
    assert |x| == |g| + |w| + |y|;
  }

  lemma NotEmpty(w: string)
    requires IsWord(w)
    ensures |w| > 0
  {
  }

  lemma ArgsStop(x: string, have: nat)
    requires StartsWith(Trim(x), "|)&;") || Token(x).0 == End
    ensures Args(x, have) == Ok(([], []), Trim(x))
  {
    TokenTrims(x);
    TrimTwice(x);
  }

  /** The words and redirections the parser finds, as they stand in the text. */
  lemma {:induction false} FoundArgs(x: string, have: nat, after: bool) returns (items: seq<Item>, y: string)
    requires Args(x, have).Ok? && (after ==> Breaks(x))
    ensures GoodItems(items, after) && x == ItemsText(items) + y && |y| <= |x|
    ensures WordsOf(items) == Args(x, have).value.0 && Tos(items) == Args(x, have).value.1
      && Trim(y) == Args(x, have).rest
    decreases |x|
  {
    hide Breaks, Trim, GoodItems, GoodItem, ToOf, ItemText, Redirs, Token, ItemsText, Tos, WordsOf;
    if StartsWith(Trim(x), "|)&;") || Token(x).0 == End {
      items, y := [], x;
      NoneGood();
      GoodLess([], after);
      ArgsStop(x, have);
    } else {
      hide StartsWith;
      var i, rest := FoundWord(x, have);
      hide Args;
      var lead, z := FoundRedirs(rest);
      TrimArgs(z, have + 1);
      var more, end := FoundArgs(z, have + 1, true);
      y := end;
      GoodConcat(lead, more, true);
      GoodCons(i, lead + more, after);
      ItemsConcat(lead, more);
      items := [i] + (lead + more);
      ItemsCons(i, lead + more);
      TextsJoin(ItemText(i), ItemsText(lead), ItemsText(more), y);
    }
  }

  lemma TextsJoin(a: string, b: string, c: string, d: string)
    ensures a + (b + (c + d)) == a + (b + c) + d
  {
  }

  lemma FoundSimple(x: string) returns (t: Syntax, y: string)
    requires ParseExec(x).Ok? && !StartsWith(Trim(x), "(")
    ensures Good(t) && Tier(t) == 0 && x == Text(t) + y && Meaning(t) == ParseExec(x).value
      && Trim(y) == ParseExec(x).rest
    ensures |y| <= |x|
  {
    hide Breaks, Trim, GoodItems, Redirs, Args, Around, Wrap;
    TrimFirst(x);
    var lead, z := FoundRedirs(x);
    TrimArgs(z, 0);
    ArgsPrintable(z, 0);
    var more, end := FoundArgs(z, 0, lead != []);
    var items := lead + more;
    GoodLess(lead, false);
    GoodConcat(lead, more, false);
    ItemsConcat(lead, more);
    AroundWraps(Exec(WordsOf(items)), items);
    t, y := Simple(items), end;
    Regroup3(ItemsText(lead), ItemsText(more), y);
    assert [] + WordsOf(more) == WordsOf(more);
  }

  /** A symbol at the front. */
  lemma SymbolSplit(x: string, c: char) returns (g: string, y: string)
    requires IsSymbol(c) && StartsWith(Trim(x), [c])
    ensures Blank(g) && x == g + ([c] + y) && Trim(x) == [c] + y && Trim(x)[1..] == y && |y| < |x|
  {
    g := TrimGap(x);
    y := Trim(x)[1..];
    assert Trim(x) == [c] + y;
  }

  lemma FoundBlock(x: string) returns (t: Syntax, y: string)
    requires ParseExec(x).Ok? && StartsWith(Trim(x), "(")
    ensures Good(t) && Tier(t) == 0 && x == Text(t) + y && Meaning(t) == ParseExec(x).value
      && Trim(y) == ParseExec(x).rest
    ensures |y| <= |x|
    decreases |x|, 0
  {
    hide Breaks, Trim, GoodItems, Redirs, Around, Wrap, ParseLine, Blank;
    TrimTwice(x);
    var g, z := SymbolSplit(x, '(');
    TrimFirst(z);
    var line, after := FoundLine(z);
    TrimTwice(after);
    var close, rest := SymbolSplit(after, ')');
    TrimFirst(rest);
    var redirs, end := FoundRedirs(rest);
    GoodLess(redirs, false);
    AroundWraps(Meaning(line), redirs);
    t, y := Block(g, line, close, redirs), end;
    BlockText(g, Text(line), close, ItemsText(redirs), y);
  }

  lemma FoundExec(x: string) returns (t: Syntax, y: string)
    requires ParseExec(x).Ok?
    ensures Good(t) && Tier(t) == 0 && x == Text(t) + y && Meaning(t) == ParseExec(x).value
      && Trim(y) == ParseExec(x).rest
    ensures |y| <= |x|
    decreases |x|, 1
  {
    hide ParseExec, Trim, Good, Meaning, Text;
    if StartsWith(Trim(x), "(") {
      t, y := FoundBlock(x);
    } else {
      t, y := FoundSimple(x);
    }
  }

  lemma FoundPipe(x: string) returns (t: Syntax, y: string)
    requires ParsePipe(x).Ok?
    ensures Good(t) && Tier(t) <= 1 && x == Text(t) + y && Meaning(t) == ParsePipe(x).value
      && Trim(y) == ParsePipe(x).rest
    ensures |y| <= |x|
    decreases |x|, 2
  {
    hide ParseExec, Trim, GoodItems, Around, WordsOf, ItemsText, Blank;
    var left, z := FoundExec(x);
    TrimTwice(z);
    if StartsWith(Trim(z), "|") {
      var g, rest := SymbolSplit(z, '|');
      TrimFirst(rest);
      var right, end := FoundPipe(rest);
      t, y := Piped(left, g, right), end;
      InfixText(Text(left), g, "|", Text(right), y);
    } else {
      t, y := left, z;
    }
  }

  lemma {:induction false} FoundBacks(t: Syntax, x: string) returns (r: Syntax, y: string)
    requires Good(t) && Tier(t) <= 2
    ensures Good(r) && Tier(r) <= 2 && Text(t) + x == Text(r) + y && Backs(Meaning(t), x) == (Meaning(r), Trim(y))
      && |y| <= |x|
    decreases |x|
  {
    hide Trim, GoodItems, Around, WordsOf, ItemsText, Blank;
    if StartsWith(Trim(x), "&") {
      var g, rest := SymbolSplit(x, '&');
      BacksTrimmed(Back(Meaning(t)), rest);
      InfixText(Text(t), g, "&", "", rest);
      r, y := FoundBacks(Job(t, g), rest);
    } else {
      r, y := t, x;
    }
  }

  lemma FoundLine(x: string) returns (t: Syntax, y: string)
    requires ParseLine(x).Ok?
    ensures Good(t) && x == Text(t) + y && Meaning(t) == ParseLine(x).value && Trim(y) == ParseLine(x).rest
      && |y| <= |x|
    decreases |x|, 3
  {
    hide ParsePipe, Trim, GoodItems, Around, WordsOf, ItemsText, Blank, Backs;
    var first, z := FoundPipe(x);
    BacksTrimmed(Meaning(first), z);
    var job, after := FoundBacks(first, z);
    if StartsWith(Trim(after), ";") {
      var g, rest := SymbolSplit(after, ';');
      TrimFirst(rest);
      var right, end := FoundLine(rest);
      t, y := Then(job, g, right), end;
      InfixText(Text(job), g, ";", Text(right), y);
    } else {
      t, y := job, after;
    }
  }

  /** parsecmd gives a line the command it is a way to write, and panics on a line that is none. */
  lemma RendersExactly(c: Cmd<string>, s: string)
    ensures ParseCmd(s) == Ok(c, "") <==> Renders(c, s)
  {
    hide ParseLine, Text, Meaning, Good;
    if ParseCmd(s) == Ok(c, "") {
      var t, y := FoundLine(s);
      TrimTwice(y);
      TrimEmpty(y);
      assert IsText(t, y, c, s);
    }
    if Renders(c, s) {
      var t, tail :| IsText(t, tail, c, s);
      TrimBlank(tail, "");
      assert tail + "" == tail;
      LineParsed(t, tail);
    }
  }
}
