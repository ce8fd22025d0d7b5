/** The shell's parser in place (sh.c): a cursor over the line, commands that point into it, words cut off by NULs. */
module ShellParser {
  import opened ShellSpec
  import opened ShellProofs
  import ShellRenders

  /** A word as the parser keeps it: where it begins, and where its NUL will go. */
  datatype Span = Span(q: int, eq: int)

  function Slice(s: string, w: Span): string {
    if 0 <= w.q <= w.eq <= |s| then s[w.q..w.eq] else ""
  }

  function Slices(s: string, ws: seq<Span>): (r: seq<string>)
    ensures |r| == |ws|
  {
    seq(|ws|, i requires 0 <= i < |ws| => Slice(s, ws[i]))
  }

  /** The command with its words read off the line. */
  function Text(c: Cmd<Span>, s: string): Cmd<string> {
    match c
    case Exec(argv) => Exec(Slices(s, argv))
    case Redir(d, file, mode, fd) => Redir(Text(d, s), Slice(s, file), mode, fd)
    case Pipe(l, r) => Pipe(Text(l, s), Text(r, s))
    case List(l, r) => List(Text(l, s), Text(r, s))
    case Back(d) => Back(Text(d, s))
  }

  /** w spans one whole word of the line. */
  predicate Cut(s: string, w: Span) {
    && 0 <= w.q <= w.eq <= |s|
    && (forall i {:trigger s[i]} :: w.q <= i < w.eq ==> IsWordChar(s[i]))
    && (w.eq == |s| || !IsWordChar(s[w.eq]))
  }

  predicate Placed(c: Cmd<Span>, s: string) {
    match c
    case Exec(argv) => forall i {:trigger argv[i]} :: 0 <= i < |argv| ==> Cut(s, argv[i])
    case Redir(d, file, mode, fd) => Placed(d, s) && Cut(s, file)
    case Pipe(l, r) => Placed(l, s) && Placed(r, s)
    case List(l, r) => Placed(l, s) && Placed(r, s)
    case Back(d) => Placed(d, s)
  }

  /** What gettoken returns for a token. */
  function Kind(t: Tok): char {
    match t
    case End => '\0'
    case Sym(c) => c
    case Append => '+'
    case Arg(_) => 'a'
  }

  /** A command and the redirections still to come around it. */
  function Finish(c: Cmd<string>, p: Parsed<seq<To<string>>>): Parsed<Cmd<string>> {
    if p.Panic? then Panic else Ok(Wrap(c, p.value), p.rest)
  }

  /** The method's outcome is what the grammar says. */
  ghost predicate Agrees(spec: Parsed<Cmd<string>>, ok: bool, c: Cmd<Span>, s: string, rest: string) {
    ok == spec.Ok? && (ok ==> Placed(c, s) && spec == Ok(Text(c, s), rest))
  }

  lemma Suffix(s: string, i: int)
    requires 0 <= i < |s|
    ensures s[i..] != "" && s[i..][0] == s[i] && s[i..][1..] == s[i + 1..]
  {
  }

  lemma TokenAt(s: string, i: int)
    requires 0 <= i <= |s| && Trim(s[i..]) == s[i..] && i < |s| && IsWordChar(s[i])
    ensures var n := WordLen(s[i..]);
      0 < n && i + n <= |s| && Token(s[i..]) == (Arg(s[i..i + n]), Trim(s[i + n..])) && Cut(s, Span(i, i + n))
  {
    var t := s[i..];
    var n := WordLen(t);
    assert t[0] == s[i];
    assert t[..n] == s[i..i + n] && t[n..] == s[i + n..];
    WordLenWord(t);
    WordLenStops(t);
    forall k | i <= k < i + n
      ensures IsWordChar(s[k])
    {
      assert s[k] == t[k - i];
    }
  }

  /** gettoken skips white space first, and then goes by the character it finds. */
  lemma TokenIs(x: string, s: string, i: int)
    requires 0 <= i <= |s| && s[i..] == Trim(x)
    ensures var c := if i < |s| then s[i] else '\0';
      && (c == '\0' ==> Token(x) == (End, s[i..]))
      && (c != '\0' && c in "|();&<" ==> Token(x) == (Sym(c), Trim(s[i + 1..])))
      && (c == '>' && i + 1 < |s| && s[i + 1] == '>' ==> Token(x) == (Append, Trim(s[i + 2..])))
      && (c == '>' && !(i + 1 < |s| && s[i + 1] == '>') ==> Token(x) == (Sym('>'), Trim(s[i + 1..])))
      && (c != '\0' && c !in "|();&<" && c != '>' ==>
           IsWordChar(c) && Token(x) == Token(s[i..]) && Trim(s[i..]) == s[i..])
  {
    TrimTwice(x);
    var t := s[i..];
    if i < |s| {
      Suffix(s, i);
      assert IsSymbol(s[i]) <==> s[i] in "|();&<" || s[i] == '>';
    }
    if i + 1 < |s| {
      assert t[1] == s[i + 1] && t[2..] == s[i + 2..];
    }
  }

  class Parser {
    const s: string
    var ps: int

    ghost predicate Valid()
      reads this
    {
      0 <= ps <= |s| && '\0' !in s
    }

    ghost function Rest(): string
      requires Valid()
      reads this
    {
      s[ps..]
    }

    constructor (s: string)
      requires '\0' !in s
      ensures Valid() && this.s == s && Rest() == s
    {
      this.s, ps := s, 0;
    }

    function At(i: int): char
      requires 0 <= i
    {
      if i < |s| then s[i] else '\0'
    }

    /** The loop that skips white space. */
    method Skip(i: int) returns (j: int)
      requires 0 <= i <= |s|
      ensures i <= j <= |s| && s[j..] == Trim(s[i..])
    {
      j := i;
      while j < |s| && IsSpace(s[j])
        invariant i <= j <= |s| && Trim(s[j..]) == Trim(s[i..])
      {
        Suffix(s, j);
        j := j + 1;
      }
      if j < |s| {
        Suffix(s, j);
      }
    }

    method Peek(toks: string) returns (r: bool)
      requires Valid() && '\0' !in toks
      modifies this
      ensures Valid() && old(ps) <= ps && Rest() == Trim(old(Rest())) && r == StartsWith(Rest(), toks)
      ensures Trim(Rest()) == Rest()
    {
      TrimTwice(Rest());
      ps := Skip(ps);
      if ps < |s| {
        Suffix(s, ps);
      }
      r := At(ps) != '\0' && At(ps) in toks;
    }

    method Gettoken() returns (ret: char, w: Span)
      requires Valid()
      modifies this
      ensures Valid() && old(ps) <= ps && Rest() == Token(old(Rest())).1
      ensures ret == Kind(Token(old(Rest())).0)
      ensures ret == 'a' ==> Token(old(Rest())).0 == Arg(Slice(s, w)) && Cut(s, w)
      ensures ret != '\0' ==> old(ps) < ps
    {
      hide Token, Trim, IsWordChar, Cut;
      var i := Skip(ps);
      TokenIs(Rest(), s, i);
      ret := At(i);
      var q := i;
      if ret == '\0' {
        TrimTwice(Rest());
      } else if ret in "|();&<" {
        i := i + 1;
      } else if ret == '>' {
        i := i + 1;
        if At(i) == '>' {
          ret := '+';
          i := i + 1;
        }
      } else {
        ret := 'a';
        TokenAt(s, q);
        i := WordEnd(i);
      }
      w := Span(q, i);
      ps := Skip(i);
    }

    /** The loop over the characters of a word. */
    method WordEnd(i: int) returns (j: int)
      requires Valid() && 0 <= i <= |s|
      ensures j == i + WordLen(s[i..])
    {
      j := i;
      while j < |s| && !IsSpace(s[j]) && !IsSymbol(s[j])
        invariant i <= j <= |s| && j - i + WordLen(s[j..]) == WordLen(s[i..])
      {
        Suffix(s, j);
        assert s[j] in s;
        j := j + 1;
      }
      if j < |s| {
        Suffix(s, j);
      }
    }

    /** parseredirs. */
    method Parseredirs(cmd: Cmd<Span>) returns (ok: bool, r: Cmd<Span>)
      requires Valid() && Placed(cmd, s)
      modifies this
      ensures Valid() && old(ps) <= ps
      ensures Agrees(Finish(Text(cmd, s), Redirs(old(Rest()))), ok, r, s, Rest())
    {
      hide Redirs, Wrap, Token, Trim, Cut, Finish;
      r := cmd;
      TrimFirst(Rest());
      var more := Peek("<>");
      while more
        invariant Valid() && old(ps) <= ps && Placed(r, s) && more == StartsWith(Rest(), "<>") && Trim(Rest()) == Rest()
        invariant Finish(Text(r, s), Redirs(Rest())) == Finish(Text(cmd, s), Redirs(old(Rest())))
        decreases |s| - ps
      {
        FinishStep(Text(r, s), Rest());
        var tok, _ := Gettoken();
        var kind, w := Gettoken();
        if kind != 'a' {
          return false, r;
        }
        r := Redir(r, w, if tok == '<' then O_RDONLY else O_WRONLY + O_CREATE, if tok == '<' then 0 else 1);
        TrimFirst(Rest());
        more := Peek("<>");
      }
      FinishStep(Text(r, s), Rest());
      return true, r;
    }

    /** parseexec. */
    method Parseexec() returns (ok: bool, r: Cmd<Span>)
      requires Valid()
      modifies this
      ensures Valid() && old(ps) <= ps
      ensures Agrees(ParseExec(old(Rest())), ok, r, s, Rest())
      decreases |s| - ps, 1
    {
      hide Redirs, Args, Wrap, Token, Trim, Cut, ParseBlock, StartsWith, Whole;
      var block := Peek("(");
      if block {
        ok, r := Parseblock();
        return;
      }
      ghost var start := Rest();
      ok, r := Parseredirs(Exec([]));
      if !ok {
        return;
      }
      WholeStart(start);
      ok, r := Parseargs(r, Redirs(start).value);
    }

    /** The loop of parseexec: words are stored in the exec node while redirections are put around it. */
    method Parseargs(ret: Cmd<Span>, ghost before: seq<To<string>>) returns (ok: bool, r: Cmd<Span>)
      requires Valid() && Placed(ret, s) && Text(ret, s) == Wrap(Exec([]), before)
      modifies this
      ensures Valid() && old(ps) <= ps
      ensures Agrees(Whole([], before, Args(old(Rest()), 0)), ok, r, s, Rest())
    {
      hide Redirs, Args, Wrap, Token, Trim, Cut, StartsWith, Whole, Fill, Slice;
      var argv: seq<Span> := [];
      ghost var chain := before;
      ok, r := true, ret;
      TrimArgs(Rest(), 0);
      var stop := Peek("|)&;");
      while !stop
        invariant Valid() && old(ps) <= ps && stop == StartsWith(Rest(), "|)&;") && Trim(Rest()) == Rest()
        invariant ok && |argv| < MAXARGS && Placed(Exec(argv), s) && Placed(r, s) && Text(r, s) == Wrap(Exec([]), chain)
        invariant Whole(Slices(s, argv), chain, Args(Rest(), |argv|)) == Whole([], before, Args(old(Rest()), 0))
        decreases |s| - ps
      {
        WholeStep(Slices(s, argv), chain, Rest(), |argv|);
        var tok, w := Gettoken();
        if tok == '\0' {
          break;
        }
        if tok != 'a' {
          return false, r;
        }
        SlicesMore(s, argv, w);
        argv := argv + [w];
        if |argv| >= MAXARGS {
          return false, r;
        }
        ghost var rest := Rest();
        ok, r := Parseredirs(r);
        if !ok {
          return;
        }
        WrapTwice(Exec([]), chain, Redirs(rest).value);
        chain := chain + Redirs(rest).value;
        TrimArgs(Rest(), |argv|);
        stop := Peek("|)&;");
      }
      if stop {
        WholeStep(Slices(s, argv), chain, Rest(), |argv|);
      }
      FillPlaced(r, argv, s, chain);
      r := Fill(r, argv);
    }

    method Parseblock() returns (ok: bool, r: Cmd<Span>)
      requires Valid()
      modifies this
      ensures Valid() && old(ps) <= ps
      ensures Agrees(ParseBlock(old(Rest())), ok, r, s, Rest())
      decreases |s| - ps, 0
    {
      hide Redirs, Wrap, Token, Trim, Cut, ParseLine;
      var open := Peek("(");
      if !open {
        return false, Exec([]);
      }
      SymbolToken(Rest());
      var _, _ := Gettoken();
      ok, r := Parseline();
      if !ok {
        return;
      }
      var close := Peek(")");
      if !close {
        return false, r;
      }
      SymbolToken(Rest());
      var _, _ := Gettoken();
      ok, r := Parseredirs(r);
    }

    method Parsepipe() returns (ok: bool, r: Cmd<Span>)
      requires Valid()
      modifies this
      ensures Valid() && old(ps) <= ps
      ensures Agrees(ParsePipe(old(Rest())), ok, r, s, Rest())
      decreases |s| - ps, 2
    {
      hide Token, Trim, Cut, ParseExec;
      ok, r := Parseexec();
      if !ok {
        return;
      }
      var more := Peek("|");
      if more {
        SymbolToken(Rest());
        var _, _ := Gettoken();
        var right;
        ok, right := Parsepipe();
        r := Pipe(r, right);
      }
    }

    method Parseline() returns (ok: bool, r: Cmd<Span>)
      requires Valid()
      modifies this
      ensures Valid() && old(ps) <= ps
      ensures Agrees(ParseLine(old(Rest())), ok, r, s, Rest())
      decreases |s| - ps, 3
    {
      hide Token, Trim, Cut, ParsePipe, Backs;
      ok, r := Parsepipe();
      if !ok {
        return;
      }
      ghost var first := ParsePipe(old(Rest()));
      var more := Peek("&");
      BacksTrim(first.value, first.rest);
      while more
        invariant Valid() && old(ps) <= ps && Placed(r, s) && more == StartsWith(Rest(), "&") && Trim(Rest()) == Rest()
        invariant Backs(Text(r, s), Rest()) == Backs(first.value, first.rest)
        decreases |s| - ps
      {
        SymbolToken(Rest());
        BacksStep(Text(r, s), Rest());
        var _, _ := Gettoken();
        r := Back(r);
        BacksTrim(Text(r, s), Rest());
        more := Peek("&");
      }
      BacksStep(Text(r, s), Rest());
      more := Peek(";");
      if more {
        SymbolToken(Rest());
        var _, _ := Gettoken();
        var right;
        ok, right := Parseline();
        r := List(r, right);
      }
    }

    /** nulterminate: a NUL after every word of the command. */
    static method Nulterminate(c: Cmd<Span>, buf: array<char>, ghost s: string)
      requires Placed(c, s) && buf.Length == |s| + 1
      modifies buf
      ensures forall i {:trigger buf[i]} :: 0 <= i < buf.Length ==> buf[i] == if i in Ends(c) then '\0' else old(buf[i])
      decreases c
    {
      match c {
        case Exec(argv) =>
          var i := 0;
          while i < |argv|
            invariant 0 <= i <= |argv|
            invariant forall k {:trigger buf[k]} :: 0 <= k < buf.Length ==>
              buf[k] == if k in Ends(Exec(argv[..i])) then '\0' else old(buf[k])
          {
            assert Cut(s, argv[i]);
            assert argv[..i + 1] == argv[..i] + [argv[i]];
            EndsMore(argv[..i], argv[i]);
            buf[argv[i].eq] := '\0';
            i := i + 1;
          }
          assert argv[..i] == argv;
        case Redir(d, file, _, _) =>
          Nulterminate(d, buf, s);
          buf[file.eq] := '\0';
        case Pipe(l, r) =>
          Nulterminate(l, buf, s);
          Nulterminate(r, buf, s);
        case List(l, r) =>
          Nulterminate(l, buf, s);
          Nulterminate(r, buf, s);
        case Back(d) =>
          Nulterminate(d, buf, s);
      }
    }

    /**
     parsecmd: the command with its words, read from the buffer as C strings, is the one the line is a way to write;
     a panic on a line that is none.
     */
    method Parsecmd(buf: array<char>) returns (ok: bool, c: Cmd<Span>)
      requires Valid() && ps == 0 && buf[..] == s + "\0"
      modifies this, buf
      ensures ok == ParseCmd(s).Ok?
      ensures ok ==> ParseCmd(s) == Ok(Read(c, buf[..]), "")
      ensures ok ==> ShellRenders.Renders(Read(c, buf[..]), s)
      ensures ok <==> exists d {:trigger ShellRenders.Renders(d, s)} :: ShellRenders.Renders(d, s)
    {
      hide ParseLine, Trim, Placed, Text, Ends, Read, ShellRenders.Renders;
      ghost var line := s;
      forall d
        ensures ParseCmd(line) == Ok(d, "") <==> ShellRenders.Renders(d, line)
      {
        ShellRenders.RendersExactly(d, line);
      }
      assert s[0..] == s;
      assert buf.Length == |buf[..]| == |s| + 1;
      ok, c := Parseline();
      if !ok {
        return;
      }
      var _ := Peek("");
      if ps != |s| {
        return false, c;
      }
      Nulterminate(c, buf, s);
      ReadCut(c, s, buf[..]);
    }
  }

  /** Where nulterminate writes. */
  ghost function Ends(c: Cmd<Span>): set<int> {
    match c
    case Exec(argv) => set w | w in argv :: w.eq
    case Redir(d, file, _, _) => Ends(d) + {file.eq}
    case Pipe(l, r) => Ends(l) + Ends(r)
    case List(l, r) => Ends(l) + Ends(r)
    case Back(d) => Ends(d)
  }

  lemma EndsMore(argv: seq<Span>, w: Span)
    ensures Ends(Exec(argv + [w])) == Ends(Exec(argv)) + {w.eq}
  {
    assert w in argv + [w];
    forall e
      ensures e in Ends(Exec(argv + [w])) <==> e in Ends(Exec(argv)) || e == w.eq
    {
      if e in Ends(Exec(argv)) {
        var v :| v in argv && v.eq == e;
        assert v in argv + [w];
      }
    }
  }

  /** The C string at q. */
  function CString(b: seq<char>, q: int): string
    decreases |b| - q
  {
    if 0 <= q < |b| && b[q] != '\0' then [b[q]] + CString(b, q + 1) else ""
  }

  /** The command with its words read from the buffer as C strings. */
  function Read(c: Cmd<Span>, b: seq<char>): Cmd<string> {
    match c
    case Exec(argv) => Exec(seq(|argv|, i requires 0 <= i < |argv| => CString(b, argv[i].q)))
    case Redir(d, file, mode, fd) => Redir(Read(d, b), CString(b, file.q), mode, fd)
    case Pipe(l, r) => Pipe(Read(l, b), Read(r, b))
    case List(l, r) => List(Read(l, b), Read(r, b))
    case Back(d) => Back(Read(d, b))
  }

  lemma {:induction false} CStringIs(b: seq<char>, q: int, e: int)
    requires 0 <= q <= e < |b| && b[e] == '\0' && forall i {:trigger b[i]} :: q <= i < e ==> b[i] != '\0'
    ensures CString(b, q) == b[q..e]
    decreases e - q
  {
    if q < e {
      CStringIs(b, q + 1, e);
      assert b[q..e] == [b[q]] + b[q + 1..e];
    }
  }

  /** The line with NULs at some places where no word continues. */
  ghost predicate Cleared(s: string, b: seq<char>, ends: set<int>) {
    && |b| == |s| + 1
    && (forall i {:trigger b[i]} :: 0 <= i < |b| ==> b[i] == if i in ends || i == |s| then '\0' else s[i])
    && (forall e {:trigger e in ends} :: e in ends ==> 0 <= e <= |s| && (e == |s| || !IsWordChar(s[e])))
  }

  /** Cutting other words off does not disturb this one. */
  lemma WordReads(s: string, b: seq<char>, ends: set<int>, w: Span)
    requires Cleared(s, b, ends) && Cut(s, w) && w.eq in ends
    ensures CString(b, w.q) == Slice(s, w)
  {
    forall i | w.q <= i < w.eq
      ensures b[i] == s[i] && b[i] != '\0'
    {
      assert IsWordChar(s[i]);
    }
    CStringIs(b, w.q, w.eq);
    assert b[w.q..w.eq] == s[w.q..w.eq];
  }

  lemma {:induction false} EndsPlaced(c: Cmd<Span>, s: string)
    requires Placed(c, s)
    ensures forall e {:trigger e in Ends(c)} :: e in Ends(c) ==> 0 <= e <= |s| && (e == |s| || !IsWordChar(s[e]))
  {
    match c {
      case Exec(argv) =>
        forall e | e in Ends(c)
          ensures 0 <= e <= |s| && (e == |s| || !IsWordChar(s[e]))
        {
          var w :| w in argv && w.eq == e;
          assert Cut(s, w);
        }
      case Redir(d, _, _, _) => EndsPlaced(d, s);
      case Pipe(l, r) => EndsPlaced(l, s); EndsPlaced(r, s);
      case List(l, r) => EndsPlaced(l, s); EndsPlaced(r, s);
      case Back(d) => EndsPlaced(d, s);
    }
  }

  /** The buffer after nulterminate, read as C strings. */
  lemma ReadCut(c: Cmd<Span>, s: string, b: seq<char>)
    requires Placed(c, s) && |b| == |s| + 1
    requires forall i {:trigger b[i]} :: 0 <= i < |b| ==> b[i] == if i in Ends(c) then '\0' else (s + "\0")[i]
    ensures Read(c, b) == Text(c, s)
  {
    hide Placed, Ends, Read, Text;
    EndsPlaced(c, s);
    ReadText(c, s, b, Ends(c));
  }

  lemma {:induction false} ReadText(c: Cmd<Span>, s: string, b: seq<char>, ends: set<int>)
    requires Placed(c, s) && Cleared(s, b, ends) && Ends(c) <= ends
    ensures Read(c, b) == Text(c, s)
  {
    hide Cleared, Cut;
    match c {
      case Exec(argv) =>
        forall i | 0 <= i < |argv|
          ensures CString(b, argv[i].q) == Slice(s, argv[i])
        {
          assert argv[i].eq in Ends(c);
          WordReads(s, b, ends, argv[i]);
        }
      case Redir(d, file, _, _) =>
        ReadText(d, s, b, ends);
        WordReads(s, b, ends, file);
      case Pipe(l, r) =>
        ReadText(l, s, b, ends);
        ReadText(r, s, b, ends);
      case List(l, r) =>
        ReadText(l, s, b, ends);
        ReadText(r, s, b, ends);
      case Back(d) =>
        ReadText(d, s, b, ends);
    }
  }

  /** One more redirection goes around the command, or none is left. */
  lemma FinishStep(c: Cmd<string>, t: string)
    requires Trim(t) == t
    ensures !StartsWith(t, "<>") ==> Finish(c, Redirs(t)) == Ok(c, t)
    ensures StartsWith(t, "<>") ==>
      var op := Token(t);
      var file := Token(op.1);
      && (Kind(op.0) == '<' <==> op.0 == Sym('<')) && op.0 != End
      && (Kind(file.0) == 'a' <==> file.0.Arg?)
      && Finish(c, Redirs(t)) == if !file.0.Arg? then Panic
         else Finish(Redir(c, file.0.word, Mode(op.0), Fd(op.0)), Redirs(file.1))
  {
  }

  lemma SymbolToken(t: string)
    requires t != "" && t[0] in "|();&" && Trim(t) == t
    ensures Token(t) == (Sym(t[0]), Trim(t[1..])) && Token(t).1 == Trim(t[1..])
  {
  }

  lemma BacksStep<W>(c: Cmd<W>, t: string)
    requires Trim(t) == t
    ensures Backs(c, t) == if StartsWith(t, "&") then Backs(Back(c), Trim(t[1..])) else (c, t)
  {
  }

  lemma BacksTrim<W>(c: Cmd<W>, s: string)
    ensures Backs(c, Trim(s)) == Backs(c, s)
  {
    TrimTwice(s);
  }

  /** Words and redirections seen so far, and those still to come. */
  function Whole(ws: seq<string>, rs: seq<To<string>>, p: Parsed<(seq<string>, seq<To<string>>)>): Parsed<Cmd<string>> {
    if p.Panic? then Panic else Ok(Wrap(Exec(ws + p.value.0), rs + p.value.1), p.rest)
  }

  lemma WholeStart(t: string)
    requires Trim(t) == t && !StartsWith(t, "(") && Redirs(t).Ok?
    ensures Whole([], Redirs(t).value, Args(Redirs(t).rest, 0)) == ParseExec(t)
  {
    hide Redirs, Args, Wrap;
    var p := Args(Redirs(t).rest, 0);
    if p.Ok? {
      assert [] + p.value.0 == p.value.0;
    }
  }

  lemma WholeEmpty(ws: seq<string>, rs: seq<To<string>>, rest: string)
    ensures Whole(ws, rs, Ok(([], []), rest)) == Ok(Wrap(Exec(ws), rs), rest)
  {
    assert ws + [] == ws && rs + [] == rs;
  }

  lemma WholeMore(ws: seq<string>, rs: seq<To<string>>, w: string, r: seq<To<string>>,
    p: Parsed<(seq<string>, seq<To<string>>)>)
    requires p.Ok?
    ensures Whole(ws, rs, Ok(([w] + p.value.0, r + p.value.1), p.rest)) == Whole(ws + [w], rs + r, p)
  {
    assert ws + ([w] + p.value.0) == ws + [w] + p.value.0;
    assert rs + (r + p.value.1) == rs + r + p.value.1;
  }

  /** The loop of parseexec, one token on. */
  lemma WholeStep(ws: seq<string>, rs: seq<To<string>>, t: string, have: nat)
    requires Trim(t) == t
    ensures StartsWith(t, "|)&;") ==> Whole(ws, rs, Args(t, have)) == Ok(Wrap(Exec(ws), rs), t)
    ensures !StartsWith(t, "|)&;") ==>
      var tok := Token(t);
      && (Kind(tok.0) == '\0' ==> Whole(ws, rs, Args(t, have)) == Ok(Wrap(Exec(ws), rs), tok.1))
      && (Kind(tok.0) != '\0' && Kind(tok.0) != 'a' ==> Whole(ws, rs, Args(t, have)).Panic?)
      && (Kind(tok.0) == 'a' && (have + 1 >= MAXARGS || Redirs(tok.1).Panic?) ==> Whole(ws, rs, Args(t, have)).Panic?)
      && (Kind(tok.0) == 'a' && have + 1 < MAXARGS && Redirs(tok.1).Ok? ==>
            tok.0.Arg? && Whole(ws, rs, Args(t, have)) ==
              Whole(ws + [tok.0.word], rs + Redirs(tok.1).value, Args(Redirs(tok.1).rest, have + 1)))
  {
    hide Redirs, Wrap, Token, Whole;
    TokenKinds(t);
    var tok := Token(t);
    WholeEmpty(ws, rs, t);
    WholeEmpty(ws, rs, tok.1);
    WholePanic(ws, rs);
    if tok.0.Arg? && Redirs(tok.1).Ok? {
      var more := Args(Redirs(tok.1).rest, have + 1);
      if more.Ok? {
        WholeMore(ws, rs, tok.0.word, Redirs(tok.1).value, more);
      } else {
        WholePanic(ws + [tok.0.word], rs + Redirs(tok.1).value);
      }
    }
  }

  lemma WholePanic(ws: seq<string>, rs: seq<To<string>>)
    ensures Whole(ws, rs, Panic) == Panic
  {
  }

  lemma TokenKinds(t: string)
    ensures var k := Token(t).0; (Kind(k) == '\0' <==> k == End) && (Kind(k) == 'a' <==> k.Arg?)
  {
  }

  lemma SlicesMore(s: string, ws: seq<Span>, w: Span)
    ensures Slices(s, ws + [w]) == Slices(s, ws) + [Slice(s, w)]
  {
  }

  lemma {:induction false} WrapTwice<W>(c: Cmd<W>, a: seq<To<W>>, b: seq<To<W>>)
    ensures Wrap(Wrap(c, a), b) == Wrap(c, a + b)
    decreases |a|
  {
    if a == [] {
      assert a + b == b;
    } else {
      assert (a + b)[1..] == a[1..] + b;
      WrapTwice(Redir(c, a[0].file, a[0].mode, a[0].fd), a[1..], b);
    }
  }

  /** The words go into the exec node, wherever the redirections have put it. */
  function Fill<W>(c: Cmd<W>, argv: seq<W>): Cmd<W> {
    if c.Redir? then c.(cmd := Fill(c.cmd, argv)) else Exec(argv)
  }

  lemma {:induction false} FillWrap<W>(c: Cmd<W>, rs: seq<To<W>>, argv: seq<W>)
    ensures Fill(Wrap(c, rs), argv) == Wrap(Fill(c, argv), rs)
    decreases |rs|
  {
    if rs != [] {
      FillWrap(Redir(c, rs[0].file, rs[0].mode, rs[0].fd), rs[1..], argv);
    }
  }

  lemma {:induction false} FillText(c: Cmd<Span>, argv: seq<Span>, s: string)
    requires Placed(c, s) && Placed(Exec(argv), s)
    ensures Text(Fill(c, argv), s) == Fill(Text(c, s), Slices(s, argv)) && Placed(Fill(c, argv), s)
  {
    if c.Redir? {
      FillText(c.cmd, argv, s);
    }
  }

  lemma FillPlaced(c: Cmd<Span>, argv: seq<Span>, s: string, chain: seq<To<string>>)
    requires Placed(c, s) && Placed(Exec(argv), s) && Text(c, s) == Wrap(Exec([]), chain)
    ensures Placed(Fill(c, argv), s) && Text(Fill(c, argv), s) == Wrap(Exec(Slices(s, argv)), chain)
  {
    hide Placed, Text;
    FillText(c, argv, s);
    FillWrap(Exec([]), chain, Slices(s, argv));
  }
}
