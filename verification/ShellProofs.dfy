/** parsecmd inverts the printer, and builds nothing the printer cannot show (sh.c). */
module ShellProofs {
  import opened ShellSpec

  // ---------------------------------------------------------------- words and redirections

  /** Input that ends a word: nothing, white space or a symbol. */
  predicate Breaks(s: string) {
    s == "" || !IsWordChar(s[0])
  }

  /** Input at which a command ends. */
  predicate Follows(s: string, toks: string) {
    s == "" || s[0] in toks
  }

  lemma {:induction false} WordLenIs(w: string, more: string)
    requires (forall i :: 0 <= i < |w| ==> IsWordChar(w[i])) && Breaks(more)
    ensures WordLen(w + more) == |w|
    decreases |w|
  {
    if w == "" {
      assert w + more == more;
    } else {
      assert (w + more)[1..] == w[1..] + more;
      WordLenIs(w[1..], more);
    }
  }

  lemma TokenWord(w: string, more: string)
    requires IsWord(w) && Breaks(more)
    ensures Token(w + more) == (Arg(w), Trim(more)) && Trim(w + more) == w + more
  {
    var s := w + more;
    assert s[0] == w[0] && IsWordChar(w[0]);
    WordLenIs(w, more);
    assert s[..|w|] == w && s[|w|..] == more;
  }

  lemma {:induction false} TrimTwice(s: string)
    ensures Trim(Trim(s)) == Trim(s)
  {
  }

  /** The parsers start by trimming. */
  lemma TrimFirst(s: string)
    ensures Redirs(Trim(s)) == Redirs(s) && ParseExec(Trim(s)) == ParseExec(s) && ParsePipe(Trim(s)) == ParsePipe(s)
      && ParseLine(Trim(s)) == ParseLine(s)
  {
    TrimTwice(s);
  }

  lemma TrimArgs(s: string, have: nat)
    ensures Args(Trim(s), have) == Args(s, have)
  {
    TrimTwice(s);
  }

  lemma RedirsBreak(rs: seq<To<string>>, post: string)
    requires Follows(post, "|)&;")
    ensures Breaks(ShowRedirs(rs) + post)
  {
  }

  lemma RedirsOne(op: string, w: string, more: string)
    requires (op == "<" || op == ">") && IsWord(w) && Breaks(more) && Redirs(more).Ok?
    ensures Redirs(op + (w + more)) ==
      Ok([To(w, Mode(Sym(op[0])), Fd(Sym(op[0])))] + Redirs(more).value, Redirs(more).rest)
  {
    hide Token, Trim, Breaks, IsWord, IsWordChar;
    TokenWord(w, more);
    TrimFirst(more);
    FirstChar(w, more);
    OpToken(op, w + more);
  }

  lemma RedirsEnd(post: string)
    requires Follows(post, "|)&;")
    ensures Redirs(post) == Ok([], post)
  {
    TrimFollow(post);
  }

  lemma RedirsSplit(rs: seq<To<string>>)
    requires AreRedirs(rs) && rs != []
    ensures IsRedir(rs[0]) && AreRedirs(rs[1..])
  {
  }

  /** The text of the first redirection, and the rest of it. */
  lemma {:induction false} RedirsText(rs: seq<To<string>>, post: string)
    requires rs != []
    ensures var op := if rs[0].fd == 0 then "<" else ">";
      ShowRedirs(rs) + post == op + (rs[0].file + (ShowRedirs(rs[1..]) + post))
    ensures rs == [rs[0]] + rs[1..]
  {
    Regroup(if rs[0].fd == 0 then "<" else ">", rs[0].file, ShowRedirs(rs[1..]), post);
  }

  lemma Regroup(a: string, b: string, c: string, d: string)
    ensures a + b + c + d == a + (b + (c + d))
  {
  }

  lemma {:induction false} RedirsShow(rs: seq<To<string>>, post: string)
    requires AreRedirs(rs) && Follows(post, "|)&;")
    ensures Redirs(ShowRedirs(rs) + post) == Ok(rs, post)
    decreases |rs|
  {
    hide AreRedirs, Redirs, IsWord, Breaks, Follows, Trim, ShowRedirs;
    if rs == [] {
      RedirsEnd(post);
      NoRedirs();
      assert ShowRedirs(rs) + post == post;
    } else {
      var r, more := rs[0], ShowRedirs(rs[1..]) + post;
      RedirsSplit(rs);
      RedirsShow(rs[1..], post);
      RedirsBreak(rs[1..], post);
      RedirsText(rs, post);
      var op := if r.fd == 0 then "<" else ">";
      RedirsOne(op, r.file, more);
    }
  }

  lemma FirstChar(w: string, more: string)
    requires IsWord(w)
    ensures w + more != "" && IsWordChar((w + more)[0])
  {
  }

  lemma TrimFollow(post: string)
    requires Follows(post, "|)&;")
    ensures Trim(post) == post && !StartsWith(post, "<>(") && !StartsWith(post, "<>")
  {
  }

  lemma OpToken(op: string, rest: string)
    requires op == "<" || op == ">"
    requires rest != "" && IsWordChar(rest[0])
    ensures var s := op + rest; Trim(s) == s && StartsWith(s, "<>") && Token(s) == (Sym(op[0]), rest)
  {
    var s := op + rest;
    assert s[0] == op[0] && s[1] == rest[0] && s[1..] == rest;
  }

  /** White space and then a word: no redirection there, and the word is the next token. */
  lemma SpacedWord(w: string, more: string)
    requires IsWord(w) && Breaks(more)
    ensures var s := " " + w + more;
      Trim(s) == w + more && Redirs(s) == Ok([], w + more) && !StartsWith(w + more, "|)&;")
        && !StartsWith(w + more, "(") && Token(w + more) == (Arg(w), Trim(more))
  {
    var s := " " + w + more;
    assert s[1..] == w + more && IsSpace(s[0]);
    TokenWord(w, more);
    FirstChar(w, more);
    hide Token;
    assert Trim(s) == Trim(s[1..]);
  }

  lemma WordsBreak(ws: seq<string>, rs: seq<To<string>>, post: string)
    requires Follows(post, "|)&;")
    ensures Breaks(ShowWords(ws) + ShowRedirs(rs) + post)
  {
    RedirsBreak(rs, post);
    if ws == [] {
      assert ShowWords(ws) + ShowRedirs(rs) + post == ShowRedirs(rs) + post;
    } else {
      assert (ShowWords(ws) + ShowRedirs(rs) + post)[0] == ' ';
    }
  }

  lemma ArgsEnd(post: string, have: nat)
    requires Follows(post, "|)&;")
    ensures Args(post, have) == Ok(([], []), post)
  {
    TrimFollow(post);
  }

  /** Words and then redirections come back as they were. */
  lemma {:induction false} ArgsShow(ws: seq<string>, rs: seq<To<string>>, post: string, have: nat)
    requires AreWords(ws) && AreRedirs(rs) && Follows(post, "|)&;") && have + |ws| < MAXARGS && (ws == [] ==> rs == [])
    ensures Args(ShowWords(ws) + ShowRedirs(rs) + post, have) == Ok((ws, rs), post)
    decreases |ws|, 0
  {
    hide Token, Trim, Breaks, IsWord, Redirs, Follows, AreRedirs, ShowRedirs;
    if ws == [] {
      ArgsEnd(post, have);
      NoRedirs();
      assert ShowWords(ws) + ShowRedirs(rs) + post == post;
    } else {
      var w, more := ws[0], ShowWords(ws[1..]) + ShowRedirs(rs) + post;
      assert IsWord(w) && AreWords(ws[1..]);
      WordsBreak(ws[1..], rs, post);
      SpacedWord(w, more);
      assert ShowWords(ws) + ShowRedirs(rs) + post == " " + w + more;
      TrimFirst(more);
      ArgsMore(ws[1..], rs, post, have + 1);
      assert ws == [w] + ws[1..];
    }
  }

  lemma NoRedirs()
    ensures ShowRedirs([]) == ""
  {
  }

  /** After a word: the redirections if it was the last, otherwise none and the words that follow. */
  lemma {:induction false} ArgsMore(ws: seq<string>, rs: seq<To<string>>, post: string, have: nat)
    requires AreWords(ws) && AreRedirs(rs) && Follows(post, "|)&;") && have + |ws| < MAXARGS
    ensures var first := Redirs(ShowWords(ws) + ShowRedirs(rs) + post);
      first.Ok? && Args(first.rest, have).Ok?
        && Args(first.rest, have) == Ok((ws, Args(first.rest, have).value.1), post)
        && first.value + Args(first.rest, have).value.1 == rs
    decreases |ws|, 1
  {
    hide Token, Trim, Breaks, IsWord, Redirs, Follows, AreRedirs, ShowRedirs, Args;
    var s := ShowWords(ws) + ShowRedirs(rs) + post;
    if ws == [] {
      assert s == ShowRedirs(rs) + post;
      RedirsShow(rs, post);
      ArgsEnd(post, have);
      assert rs + [] == rs;
    } else {
      var w, more := ws[0], ShowWords(ws[1..]) + ShowRedirs(rs) + post;
      assert IsWord(w);
      WordsBreak(ws[1..], rs, post);
      SpacedWord(w, more);
      assert s == " " + w + more;
      TrimArgs(s, have);
      ArgsShow(ws, rs, post, have);
      assert [] + rs == rs;
    }
  }

  // ---------------------------------------------------------------- redirections around a command

  lemma {:induction false} WrapMore<W>(c: Cmd<W>, rs: seq<To<W>>, r: To<W>)
    ensures Wrap(c, rs + [r]) == Redir(Wrap(c, rs), r.file, r.mode, r.fd)
    decreases |rs|
  {
    if rs == [] {
      assert rs + [r] == [r];
      assert Wrap(Redir(c, r.file, r.mode, r.fd), [r][1..]) == Redir(c, r.file, r.mode, r.fd);
    } else {
      assert (rs + [r])[1..] == rs[1..] + [r];
      WrapMore(Redir(c, rs[0].file, rs[0].mode, rs[0].fd), rs[1..], r);
    }
  }

  lemma {:induction false} WrapBase<W>(c: Cmd<W>)
    ensures Wrap(Base(c), RedirsOf(c)) == c
  {
    if c.Redir? {
      WrapBase(c.cmd);
      WrapMore(Base(c), RedirsOf(c.cmd), To(c.file, c.mode, c.fd));
    }
  }

  lemma {:induction false} PrintableParts(c: Cmd<string>)
    requires Printable(c)
    ensures Printable(Base(c)) && AreRedirs(RedirsOf(c))
  {
    if c.Redir? {
      PrintableParts(c.cmd);
    }
  }

  // ---------------------------------------------------------------- commands

  lemma NoBlock(ws: seq<string>, rs: seq<To<string>>, post: string)
    requires AreWords(ws) && Follows(post, "|)&;")
    ensures !StartsWith(Trim(ShowWords(ws) + ShowRedirs(rs) + post), "(")
  {
    hide Redirs, Token, Trim, IsWord, Breaks, StartsWith, ShowRedirs;
    var s := ShowWords(ws) + ShowRedirs(rs) + post;
    if ws != [] {
      var more := ShowWords(ws[1..]) + ShowRedirs(rs) + post;
      WordsBreak(ws[1..], rs, post);
      SpacedWord(ws[0], more);
      assert s == " " + ws[0] + more;
    } else {
      assert s == ShowRedirs(rs) + post;
      RedirsNoBlock(rs, post);
    }
  }

  lemma RedirsNoBlock(rs: seq<To<string>>, post: string)
    requires Follows(post, "|)&;")
    ensures !StartsWith(Trim(ShowRedirs(rs) + post), "(")
  {
    var s := ShowRedirs(rs) + post;
    if rs == [] {
      assert s == post;
    } else {
      assert s[0] == '<' || s[0] == '>';
    }
  }

  lemma SimpleShow(ws: seq<string>, rs: seq<To<string>>, post: string)
    requires AreWords(ws) && AreRedirs(rs) && |ws| < MAXARGS && Follows(post, "|)&;")
    ensures ParseExec(ShowWords(ws) + ShowRedirs(rs) + post) == Ok(Wrap(Exec(ws), rs), post)
  {
    hide Trim, Redirs, Args, AreWords, AreRedirs, Wrap, ShowWords, ShowRedirs, Follows;
    NoBlock(ws, rs, post);
    TrimFirst(ShowWords(ws) + ShowRedirs(rs) + post);
    ArgsMore(ws, rs, post, 0);
  }

  /** A symbol is not white space, and neither is what it leaves trimmed twice. */
  lemma SymbolTrim(c: char, rest: string)
    requires IsSymbol(c)
    ensures var s := [c] + rest; Trim(s) == s && s[1..] == rest && s[0] == c
  {
  }

  lemma BlockShow(inner: string, b: Cmd<string>, rs: seq<To<string>>, post: string)
    requires AreRedirs(rs) && Follows(post, "|)&;")
    requires ParseLine(inner + (")" + (ShowRedirs(rs) + post))) == Ok(b, ")" + (ShowRedirs(rs) + post))
    ensures ParseExec("(" + inner + ")" + ShowRedirs(rs) + post) == Ok(Wrap(b, rs), post)
  {
    hide Trim, Redirs, Args, AreRedirs, Wrap, ShowRedirs, Follows, ParseLine;
    var tail := ShowRedirs(rs) + post;
    var body := inner + (")" + tail);
    var s := "(" + inner + ")" + ShowRedirs(rs) + post;
    assert s == "(" + body;
    SymbolTrim('(', body);
    SymbolTrim(')', tail);
    TrimFirst(body);
    TrimFirst(tail);
    RedirsShow(rs, post);
  }

  lemma ExecShow(c: Cmd<string>, post: string)
    requires Printable(c) && Follows(post, "|)&;")
    ensures ParseExec(ShowBlock(c) + post) == Ok(c, post)
    decreases c, if Level(c) == 0 then 0 else 10
  {
    hide ParseExec, ParseLine, ShowWords, ShowRedirs, AreWords, AreRedirs, Wrap;
    var b, rs := Base(c), RedirsOf(c);
    PrintableParts(c);
    WrapBase(c);
    BaseSmaller(c);
    if b.Exec? {
      SimpleShow(b.argv, rs, post);
    } else {
      LineShow(b, ")" + (ShowRedirs(rs) + post));
      BlockShow(Show(b, 3), b, rs, post);
    }
  }

  lemma PipeShow(c: Cmd<string>, post: string)
    requires Printable(c) && Follows(post, "&;)")
    ensures ParsePipe(Show(c, 1) + post) == Ok(c, post)
    decreases c, if Level(c) <= 1 then 1 else 11
  {
    hide ParseExec, Trim, ShowBlock;
    if c.Pipe? {
      var tail := Show(c.right, 1) + post;
      ExecShow(c.left, "|" + tail);
      assert Show(c, 1) + post == ShowBlock(c.left) + ("|" + tail);
      SymbolTrim('|', tail);
      TrimFirst(tail);
      PipeShow(c.right, post);
    } else {
      FollowTrim(post);
      ExecShow(c, post);
    }
  }

  lemma FollowTrim(post: string)
    requires Follows(post, "&;)")
    ensures Trim(post) == post && !StartsWith(post, "|") && Follows(post, "|)&;")
  {
  }

  lemma JobShow(c: Cmd<string>, post: string)
    requires Printable(c) && Follows(post, "&;)")
    ensures var p := ParsePipe(Show(c, 2) + post); p.Ok? && Backs(p.value, p.rest) == Backs(c, post)
    decreases c, if Level(c) <= 2 then 2 else 12
  {
    hide ParsePipe, Trim, ShowBlock;
    if c.Back? {
      assert Show(c, 2) + post == Show(c.cmd, 2) + ("&" + post);
      SymbolTrim('&', post);
      FollowTrim(post);
      JobShow(c.cmd, "&" + post);
    } else {
      PipeShow(c, post);
    }
  }

  lemma LineShow(c: Cmd<string>, post: string)
    requires Printable(c) && Follows(post, ")")
    ensures ParseLine(Show(c, 3) + post) == Ok(c, post)
    decreases c, 5
  {
    hide ParsePipe, Trim, ShowBlock;
    if c.List? {
      var tail := Show(c.right, 3) + post;
      assert Show(c, 3) + post == Show(c.left, 2) + (";" + tail);
      SymbolTrim(';', tail);
      JobShow(c.left, ";" + tail);
      TrimFirst(tail);
      LineShow(c.right, post);
    } else {
      FollowTrim(post);
      JobShow(c, post);
    }
  }

  /** parsecmd inverts the printer on every command it can print. */
  lemma RoundTrip(c: Cmd<string>)
    requires Printable(c)
    ensures ParseCmd(Show(c, 3)) == Ok(c, "")
  {
    LineShow(c, "");
    assert Show(c, 3) + "" == Show(c, 3);
  }

  // ---------------------------------------------------------------- what the parser builds is printable

  lemma {:induction false} WordLenWord(s: string)
    ensures forall i :: 0 <= i < WordLen(s) ==> IsWordChar(s[i])
    decreases |s|
  {
    if s != "" && IsWordChar(s[0]) {
      WordLenWord(s[1..]);
      forall i | 0 <= i < WordLen(s)
        ensures IsWordChar(s[i])
      {
        if 0 < i {
          assert s[i] == s[1..][i - 1];
        }
      }
    }
  }

  lemma {:induction false} WordLenStops(t: string)
    ensures WordLen(t) == |t| || !IsWordChar(t[WordLen(t)])
    decreases |t|
  {
    if t != "" && IsWordChar(t[0]) {
      WordLenStops(t[1..]);
    }
  }

  lemma TokenWords(s: string)
    ensures Token(s).0.Arg? ==> IsWord(Token(s).0.word)
  {
    WordLenWord(Trim(s));
  }

  lemma {:induction false} RedirsPrintable(s: string)
    ensures Redirs(s).Ok? ==> AreRedirs(Redirs(s).value)
    decreases |s|
  {
    hide Token, IsWord;
    var t := Trim(s);
    if StartsWith(t, "<>") && Token(Token(t).1).0.Arg? {
      TokenWords(Token(t).1);
      RedirsPrintable(Token(Token(t).1).1);
    }
  }

  lemma {:induction false} ArgsPrintable(s: string, have: nat)
    requires have < MAXARGS
    ensures Args(s, have).Ok? ==>
      AreWords(Args(s, have).value.0) && AreRedirs(Args(s, have).value.1) && have + |Args(s, have).value.0| < MAXARGS
    decreases |s|
  {
    hide Token, IsWord, Redirs;
    var t := Trim(s);
    if !StartsWith(t, "|)&;") && Token(t).0.Arg? && have + 1 < MAXARGS {
      TokenWords(t);
      RedirsPrintable(Token(t).1);
      var rs := Redirs(Token(t).1);
      if rs.Ok? {
        ArgsPrintable(rs.rest, have + 1);
      }
    }
  }

  lemma {:induction false} WrapPrintable(c: Cmd<string>, rs: seq<To<string>>)
    requires Printable(c) && AreRedirs(rs)
    ensures Printable(Wrap(c, rs))
    decreases |rs|
  {
    if rs != [] {
      WrapPrintable(Redir(c, rs[0].file, rs[0].mode, rs[0].fd), rs[1..]);
    }
  }

  lemma {:induction false} BacksPrintable(c: Cmd<string>, s: string)
    requires Printable(c)
    ensures Printable(Backs(c, s).0)
    decreases |s|
  {
    if StartsWith(Trim(s), "&") {
      BacksPrintable(Back(c), Trim(Trim(s)[1..]));
    }
  }

  lemma {:induction false} LinePrintable(s: string)
    ensures ParseLine(s).Ok? ==> Printable(ParseLine(s).value)
    decreases |s|, 3
  {
    PipePrintable(s);
    var first := ParsePipe(s);
    if first.Ok? {
      BacksPrintable(first.value, first.rest);
      var job := Backs(first.value, first.rest);
      if StartsWith(job.1, ";") {
        LinePrintable(Trim(job.1[1..]));
      }
    }
  }

  lemma {:induction false} PipePrintable(s: string)
    ensures ParsePipe(s).Ok? ==> Printable(ParsePipe(s).value)
    decreases |s|, 2
  {
    ExecPrintable(s);
    var first := ParseExec(s);
    if first.Ok? && StartsWith(Trim(first.rest), "|") {
      PipePrintable(Trim(Trim(first.rest)[1..]));
    }
  }

  lemma {:induction false} ExecPrintable(s: string)
    ensures ParseExec(s).Ok? ==> Printable(ParseExec(s).value)
    decreases |s|, 1
  {
    hide Trim, Redirs, Args, AreRedirs, AreWords;
    var t := Trim(s);
    if StartsWith(t, "(") {
      BlockPrintable(t);
    } else {
      RedirsPrintable(t);
      var rs := Redirs(t);
      if rs.Ok? {
        ArgsPrintable(rs.rest, 0);
        var args := Args(rs.rest, 0);
        if args.Ok? {
          BothRedirs(rs.value, args.value.1);
          WrapPrintable(Exec(args.value.0), rs.value + args.value.1);
        }
      }
    }
  }

  lemma BothRedirs(a: seq<To<string>>, b: seq<To<string>>)
    requires AreRedirs(a) && AreRedirs(b)
    ensures AreRedirs(a + b)
  {
  }

  lemma {:induction false} BlockPrintable(s: string)
    ensures ParseBlock(s).Ok? ==> Printable(ParseBlock(s).value)
    decreases |s|, 0
  {
    var t := Trim(s);
    if StartsWith(t, "(") {
      LinePrintable(Trim(t[1..]));
      var line := ParseLine(Trim(t[1..]));
      if line.Ok? && StartsWith(Trim(line.rest), ")") {
        var after := Trim(Trim(line.rest)[1..]);
        RedirsPrintable(after);
        if Redirs(after).Ok? {
          WrapPrintable(line.value, Redirs(after).value);
        }
      }
    }
  }

  /** The trees parsecmd can return are exactly the printable ones. */
  lemma ParsedExactly(c: Cmd<string>)
    ensures Printable(c) <==> exists s {:trigger ParseCmd(s)} :: ParseCmd(s) == Ok(c, "")
  {
    if Printable(c) {
      RoundTrip(c);
    }
    if s :| ParseCmd(s) == Ok(c, "") {
      LinePrintable(s);
    }
  }
}
