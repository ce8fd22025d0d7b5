/** The shell's command language (sh.c): tokens, the recursive-descent grammar, and a printer for its trees. */
module ShellSpec {
  const MAXARGS: int := 10
  const O_RDONLY: int := 0
  const O_WRONLY: int := 1
  const O_CREATE: int := 0x200

  /** struct cmd, with words of type W. */
  datatype Cmd<W> =
    | Exec(argv: seq<W>)
    | Redir(cmd: Cmd<W>, file: W, mode: int, fd: int)
    | Pipe(left: Cmd<W>, right: Cmd<W>)
    | List(left: Cmd<W>, right: Cmd<W>)
    | Back(cmd: Cmd<W>)

  /** One redirection. */
  datatype To<W> = To(file: W, mode: int, fd: int)

  /** A parse and the input left after it; Panic for a syntax error. */
  datatype Parsed<T> = Ok(value: T, rest: string) | Panic

  // ---------------------------------------------------------------- tokens

  predicate IsSpace(c: char) {
    c in " \t\r\n\U{0B}"
  }

  predicate IsSymbol(c: char) {
    c in "<|>&;()"
  }

  predicate IsWordChar(c: char) {
    c != '\0' && !IsSpace(c) && !IsSymbol(c)
  }

  datatype Tok = End | Sym(c: char) | Append | Arg(word: string)

  /** The input from the first character that is not white space. */
  function Trim(s: string): (r: string)
    ensures |r| <= |s|
    ensures r != "" ==> !IsSpace(r[0])
    decreases |s|
  {
    if s != "" && IsSpace(s[0]) then Trim(s[1..]) else s
  }

  function WordLen(s: string): (n: nat)
    ensures n <= |s|
    decreases |s|
  {
    if s != "" && IsWordChar(s[0]) then 1 + WordLen(s[1..]) else 0
  }

  predicate StartsWith(s: string, toks: string) {
    s != "" && s[0] in toks
  }

  /** gettoken. */
  function Token(s: string): (r: (Tok, string))
    ensures |r.1| <= |s|
    ensures r.0 != End ==> |r.1| < |s|
  {
    var t := Trim(s);
    if t == "" || t[0] == '\0' then (End, t)
    else if t[0] in "|();&<" then (Sym(t[0]), Trim(t[1..]))
    else if t[0] == '>' then
      if 1 < |t| && t[1] == '>' then (Append, Trim(t[2..])) else (Sym('>'), Trim(t[1..]))
    else (Arg(t[..WordLen(t)]), Trim(t[WordLen(t)..]))
  }

  // ---------------------------------------------------------------- the grammar

  function Mode(tok: Tok): int {
    if tok == Sym('<') then O_RDONLY else O_WRONLY + O_CREATE
  }

  function Fd(tok: Tok): int {
    if tok == Sym('<') then 0 else 1
  }

  function Wrap<W>(c: Cmd<W>, rs: seq<To<W>>): Cmd<W>
    decreases |rs|
  {
    if rs == [] then c else Wrap(Redir(c, rs[0].file, rs[0].mode, rs[0].fd), rs[1..])
  }

  /** The redirections at the front. */
  function Redirs(s: string): (r: Parsed<seq<To<string>>>)
    ensures r.Ok? ==> |r.rest| <= |s|
    decreases |s|
  {
    var t := Trim(s);
    if !StartsWith(t, "<>") then Ok([], t)
    else
      var op := Token(t);
      var file := Token(op.1);
      if !file.0.Arg? then Panic
      else
        var more := Redirs(file.1);
        if more.Panic? then Panic else Ok([To(file.0.word, Mode(op.0), Fd(op.0))] + more.value, more.rest)
  }

  /** The words of a command, with redirections in between; have of them came before. */
  function Args(s: string, have: nat): (r: Parsed<(seq<string>, seq<To<string>>)>)
    ensures r.Ok? ==> |r.rest| <= |s|
    decreases |s|
  {
    var t := Trim(s);
    if StartsWith(t, "|)&;") then Ok(([], []), t)
    else
      var tok := Token(t);
      match tok.0
      case End => Ok(([], []), tok.1)
      case Arg(w) =>
        if have + 1 >= MAXARGS then Panic
        else
          var rs := Redirs(tok.1);
          if rs.Panic? then Panic
          else
            var more := Args(rs.rest, have + 1);
            if more.Panic? then Panic else Ok(([w] + more.value.0, rs.value + more.value.1), more.rest)
      case _ => Panic
  }

  function ParseLine(s: string): (r: Parsed<Cmd<string>>)
    ensures r.Ok? ==> |r.rest| <= |s|
    decreases |s|, 3
  {
    var first := ParsePipe(s);
    if first.Panic? then Panic
    else
      var job := Backs(first.value, first.rest);
      if !StartsWith(job.1, ";") then Ok(job.0, job.1)
      else
        var more := ParseLine(Trim(job.1[1..]));
        if more.Panic? then Panic else Ok(List(job.0, more.value), more.rest)
  }

  /** The '&'s after a pipeline. */
  function Backs<W>(c: Cmd<W>, s: string): (r: (Cmd<W>, string))
    ensures |r.1| <= |s|
    decreases |s|
  {
    var t := Trim(s);
    if StartsWith(t, "&") then Backs(Back(c), Trim(t[1..])) else (c, t)
  }

  function ParsePipe(s: string): (r: Parsed<Cmd<string>>)
    ensures r.Ok? ==> |r.rest| <= |s|
    decreases |s|, 2
  {
    var first := ParseExec(s);
    if first.Panic? then Panic
    else
      var t := Trim(first.rest);
      if !StartsWith(t, "|") then Ok(first.value, t)
      else
        var more := ParsePipe(Trim(t[1..]));
        if more.Panic? then Panic else Ok(Pipe(first.value, more.value), more.rest)
  }

  function ParseBlock(s: string): (r: Parsed<Cmd<string>>)
    ensures r.Ok? ==> |r.rest| <= |s|
    decreases |s|, 0
  {
    var t := Trim(s);
    if !StartsWith(t, "(") then Panic
    else
      var line := ParseLine(Trim(t[1..]));
      if line.Panic? || !StartsWith(Trim(line.rest), ")") then Panic
      else
        var rs := Redirs(Trim(Trim(line.rest)[1..]));
        if rs.Panic? then Panic else Ok(Wrap(line.value, rs.value), rs.rest)
  }

  function ParseExec(s: string): (r: Parsed<Cmd<string>>)
    ensures r.Ok? ==> |r.rest| <= |s|
    decreases |s|, 1
  {
    var t := Trim(s);
    if StartsWith(t, "(") then ParseBlock(t)
    else
      var rs := Redirs(t);
      if rs.Panic? then Panic
      else
        var args := Args(rs.rest, 0);
        if args.Panic? then Panic else Ok(Wrap(Exec(args.value.0), rs.value + args.value.1), args.rest)
  }

  /** parsecmd: the whole input or a panic. */
  function ParseCmd(s: string): (r: Parsed<Cmd<string>>) {
    var line := ParseLine(s);
    if line.Panic? || Trim(line.rest) != "" then Panic else Ok(line.value, "")
  }

  // ---------------------------------------------------------------- the printer

  /** How loosely the command binds: words and redirections, pipelines, background jobs, lists. */
  function Level<W>(c: Cmd<W>): nat {
    match c
    case Exec(_) => 0
    case Redir(_, _, _, _) => 0
    case Pipe(_, _) => 1
    case Back(_) => 2
    case List(_, _) => 3
  }

  /** The command under the redirections, and the redirections, innermost first. */
  function Base<W>(c: Cmd<W>): (r: Cmd<W>)
    ensures !r.Redir?
  {
    if c.Redir? then Base(c.cmd) else c
  }

  function RedirsOf<W>(c: Cmd<W>): seq<To<W>> {
    if c.Redir? then RedirsOf(c.cmd) + [To(c.file, c.mode, c.fd)] else []
  }

  function ShowWords(ws: seq<string>): string
    decreases |ws|
  {
    if ws == [] then "" else " " + ws[0] + ShowWords(ws[1..])
  }

  function ShowRedirs(rs: seq<To<string>>): string
    decreases |rs|
  {
    if rs == [] then "" else (if rs[0].fd == 0 then "<" else ">") + rs[0].file + ShowRedirs(rs[1..])
  }

  lemma BaseSmaller<W>(c: Cmd<W>)
    ensures c.Redir? ==> Base(c) < c
  {
  }

  /** As an operand of '|' on its left: words and redirections, or a block. */
  function ShowBlock(c: Cmd<string>): string
    decreases c, if Level(c) == 0 then 0 else 2
  {
    BaseSmaller(c);
    var b := Base(c);
    (if b.Exec? then ShowWords(b.argv) else "(" + Show(b, 3) + ")") + ShowRedirs(RedirsOf(c))
  }

  /** The text of a command where only levels up to the given one may stand without parentheses. */
  function Show(c: Cmd<string>, level: nat): string
    decreases c, if Level(c) <= level then 1 else 3
  {
    if level < Level(c) then ShowBlock(c)
    else
      match c
      case Pipe(l, r) => ShowBlock(l) + "|" + Show(r, 1)
      case Back(d) => Show(d, 2) + "&"
      case List(l, r) => Show(l, 2) + ";" + Show(r, 3)
      case _ => ShowBlock(c)
  }

  // ---------------------------------------------------------------- the trees of the language

  predicate IsWord(w: string) {
    w != "" && forall i :: 0 <= i < |w| ==> IsWordChar(w[i])
  }

  /** The two kinds of redirection the parser builds. */
  predicate IsRedir(r: To<string>) {
    IsWord(r.file) && ((r.mode == O_RDONLY && r.fd == 0) || (r.mode == O_WRONLY + O_CREATE && r.fd == 1))
  }

  predicate AreWords(ws: seq<string>) {
    forall i {:trigger ws[i]} :: 0 <= i < |ws| ==> IsWord(ws[i])
  }

  predicate AreRedirs(rs: seq<To<string>>) {
    forall i {:trigger rs[i]} :: 0 <= i < |rs| ==> IsRedir(rs[i])
  }

  predicate Printable(c: Cmd<string>) {
    match c
    case Exec(argv) => |argv| < MAXARGS && AreWords(argv)
    case Redir(d, file, mode, fd) => Printable(d) && IsRedir(To(file, mode, fd))
    case Pipe(l, r) => Printable(l) && Printable(r)
    case List(l, r) => Printable(l) && Printable(r)
    case Back(d) => Printable(d)
  }
}
