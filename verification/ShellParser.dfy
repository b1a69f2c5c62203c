/** The command parser of sh.c as functions on the rest of the line. Strings are the characters before the
    terminating NUL.
 */
module ShellParser {

  const MAXARGS: nat := 10

  /** A command tree. A redirection is for standard input if `input`, else for standard output. */
  datatype Cmd =
    | Exec(argv: seq<string>)
    | Redir(cmd: Cmd, file: string, input: bool)
    | Pipe(left: Cmd, right: Cmd)
    | List(left: Cmd, right: Cmd)
    | Back(cmd: Cmd)

  /** A parse of a command: the tree and the rest of the line, or a syntax error. */
  datatype Parse = Ok(cmd: Cmd, rest: string) | Err

  datatype Redirection = Redirection(file: string, input: bool)
  datatype RedirParse = Redirs(list: seq<Redirection>, rest: string) | RedirErr

  /** `kind` is what gettoken returns: 'a' for a word, '+' for ">>", the symbol itself, or '0' at the end. */
  datatype Token = Token(kind: char, word: string, rest: string)

  // ---------------------------------------------------------------- tokens

  predicate IsSpace(c: char) {
    c == ' ' || c == '\t' || c == '\r' || c == '\n' || c == '\U{0B}'
  }

  predicate IsSymbol(c: char) {
    c in "<|>&;()"
  }

  function Skip(s: string): (r: string)
    ensures |r| <= |s|
    ensures r != "" ==> !IsSpace(r[0])
  {
    if s != "" && IsSpace(s[0]) then Skip(s[1..]) else s
  }

  function WordLength(s: string): (n: nat)
    ensures n <= |s|
    ensures s != "" && !IsSpace(s[0]) && !IsSymbol(s[0]) ==> n > 0
  {
    if s == "" || IsSpace(s[0]) || IsSymbol(s[0]) then 0 else 1 + WordLength(s[1..])
  }

  /** gettoken. */
  function NextToken(s: string): (t: Token)
    ensures |t.rest| <= |s|
    ensures t.kind == '0' ==> t.rest == ""
    ensures t.kind != '0' ==> |t.rest| < |s|
  {
    var t := Skip(s);
    if t == "" then Token('0', "", "")
    else if t[0] == '>' then
      if |t| > 1 && t[1] == '>' then Token('+', "", Skip(t[2..])) else Token('>', "", Skip(t[1..]))
    else if IsSymbol(t[0]) then Token(t[0], "", Skip(t[1..]))
    else
      var n := WordLength(t);
      Token('a', t[..n], Skip(t[n..]))
  }

  /** The test of peek; peek also moves the cursor to Skip(s). */
  predicate Peek(s: string, toks: string) {
    Skip(s) != "" && Skip(s)[0] in toks
  }

  // ---------------------------------------------------------------- the parser

  /** The redirections around a command, the first one innermost. */
  function Wrap(c: Cmd, list: seq<Redirection>): Cmd
    decreases |list|
  {
    if list == [] then c else Wrap(Redir(c, list[0].file, list[0].input), list[1..])
  }

  /** parseredirs. */
  function ParseRedirs(s: string): (r: RedirParse)
    ensures r.Redirs? ==> |r.rest| <= |s|
    decreases |s|
  {
    if !Peek(s, "<>") then Redirs([], Skip(s))
    else
      var op := NextToken(s);
      var file := NextToken(op.rest);
      if file.kind != 'a' then RedirErr
      else
        var more := ParseRedirs(file.rest);
        if more.RedirErr? then RedirErr
        else Redirs([Redirection(file.word, op.kind == '<')] + more.list, more.rest)
  }

  /** What is parsed behind the redirections in `list`. */
  function WithRedirs(list: seq<Redirection>, r: RedirParse): RedirParse {
    if r.RedirErr? then RedirErr else Redirs(list + r.list, r.rest)
  }

  lemma WithNone(r: RedirParse)
    ensures WithRedirs([], r) == r
  {
  }

  /** The argument loop of parseexec, from the point where redirections are looked for. */
  function ParseArgs(s: string, argv: seq<string>, list: seq<Redirection>): (r: Parse)
    ensures r.Ok? ==> |r.rest| <= |s|
    decreases |s|
  {
    var rd := ParseRedirs(s);
    if rd.RedirErr? then Err
    else
      var list' := list + rd.list;
      if Peek(rd.rest, "|)&;") then Ok(Wrap(Exec(argv), list'), Skip(rd.rest))
      else
        var t := NextToken(rd.rest);
        if t.kind == '0' then Ok(Wrap(Exec(argv), list'), t.rest)
        else if t.kind != 'a' then Err
        else if |argv| + 1 >= MAXARGS then Err
        else ParseArgs(t.rest, argv + [t.word], list')
  }

  /** parseexec. */
  function ParseExec(s: string): (r: Parse)
    ensures r.Ok? ==> |r.rest| <= |s|
    decreases |s|, 1
  {
    if Peek(s, "(") then ParseBlock(s) else ParseArgs(s, [], [])
  }

  /** parseblock. */
  function ParseBlock(s: string): (r: Parse)
    ensures r.Ok? ==> |r.rest| <= |s|
    decreases |s|, 0
  {
    if !Peek(s, "(") then Err
    else
      var line := ParseLine(NextToken(s).rest);
      if line.Err? || !Peek(line.rest, ")") then Err
      else
        var rd := ParseRedirs(NextToken(line.rest).rest);
        if rd.RedirErr? then Err else Ok(Wrap(line.cmd, rd.list), rd.rest)
  }

  /** parsepipe. */
  function ParsePipe(s: string): (r: Parse)
    ensures r.Ok? ==> |r.rest| <= |s|
    decreases |s|, 2
  {
    var left := ParseExec(s);
    if left.Err? then Err
    else if !Peek(left.rest, "|") then Ok(left.cmd, Skip(left.rest))
    else
      var right := ParsePipe(NextToken(left.rest).rest);
      if right.Err? then Err else Ok(Pipe(left.cmd, right.cmd), right.rest)
  }

  /** The loop of parseline over "&". */
  function ParseBack(c: Cmd, s: string): (r: Parse)
    ensures r.Ok? && |r.rest| <= |s|
    decreases |s|
  {
    if Peek(s, "&") then ParseBack(Back(c), NextToken(s).rest) else Ok(c, Skip(s))
  }

  /** parseline. */
  function ParseLine(s: string): (r: Parse)
    ensures r.Ok? ==> |r.rest| <= |s|
    decreases |s|, 3
  {
    var first := ParsePipe(s);
    if first.Err? then Err
    else
      var back := ParseBack(first.cmd, first.rest);
      if !Peek(back.rest, ";") then Ok(back.cmd, Skip(back.rest))
      else
        var right := ParseLine(NextToken(back.rest).rest);
        if right.Err? then Err else Ok(List(back.cmd, right.cmd), right.rest)
  }

  /** parsecmd: the whole line must be a command. */
  function ParseCmd(s: string): Parse {
    var r := ParseLine(s);
    if r.Err? || Skip(r.rest) != "" then Err else Ok(r.cmd, "")
  }

  // Leading blanks do not matter to any part of the parser.

  lemma {:induction false} SkipTwice(s: string)
    ensures Skip(Skip(s)) == Skip(s)
  {
  }

  lemma SkipToken(s: string)
    ensures NextToken(Skip(s)) == NextToken(s)
    ensures forall toks :: Peek(Skip(s), toks) == Peek(s, toks)
  {
    SkipTwice(s);
  }

  lemma {:induction false} SkipRedirs(s: string)
    ensures ParseRedirs(Skip(s)) == ParseRedirs(s)
  {
    SkipTwice(s);
    SkipToken(s);
  }

  lemma {:induction false} SkipArgs(s: string, argv: seq<string>, list: seq<Redirection>)
    ensures ParseArgs(Skip(s), argv, list) == ParseArgs(s, argv, list)
  {
    SkipRedirs(s);
  }

  lemma {:induction false} SkipExec(s: string)
    ensures ParseExec(Skip(s)) == ParseExec(s)
  {
    SkipToken(s);
    SkipArgs(s, [], []);
    assert ParseBlock(Skip(s)) == ParseBlock(s);
  }

  lemma {:induction false} SkipPipe(s: string)
    ensures ParsePipe(Skip(s)) == ParsePipe(s)
  {
    SkipExec(s);
  }

  lemma {:induction false} SkipLine(s: string)
    ensures ParseLine(Skip(s)) == ParseLine(s)
  {
    SkipPipe(s);
  }

  lemma {:induction false} SkipBack(c: Cmd, s: string)
    ensures ParseBack(c, Skip(s)) == ParseBack(c, s)
  {
    SkipTwice(s);
    SkipToken(s);
  }
}
