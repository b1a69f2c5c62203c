/** A printer for command trees, and the proof that the shell's parser reads back what it prints. */
module ShellRoundTrip {
  import opened ShellParser

  // ---------------------------------------------------------------- the printer

  predicate IsWord(w: string) {
    w != "" && forall i | 0 <= i < |w| :: !IsSpace(w[i]) && !IsSymbol(w[i])
  }

  /** A tree that a line can stand for: at most nine arguments, and words without blanks or symbols. */
  predicate Printable(c: Cmd) {
    match c
    case Exec(argv) => |argv| < MAXARGS && forall i | 0 <= i < |argv| :: IsWord(argv[i])
    case Redir(c', file, _) => IsWord(file) && Printable(c')
    case Pipe(l, r) => Printable(l) && Printable(r)
    case List(l, r) => Printable(l) && Printable(r)
    case Back(c') => Printable(c')
  }

  function Size(c: Cmd): (n: nat)
    ensures n > 0
  {
    match c
    case Exec(_) => 1
    case Redir(c', _, _) => 1 + Size(c')
    case Pipe(l, r) => 1 + Size(l) + Size(r)
    case List(l, r) => 1 + Size(l) + Size(r)
    case Back(c') => 1 + Size(c')
  }

  /** The command inside all redirections. */
  function Base(c: Cmd): (b: Cmd)
    ensures !b.Redir? && Size(b) <= Size(c)
    ensures !c.Redir? ==> b == c
    ensures Printable(c) ==> Printable(b)
  {
    if c.Redir? then Base(c.cmd) else c
  }

  function RedirList(c: Cmd): (list: seq<Redirection>)
    ensures Printable(c) ==> forall i | 0 <= i < |list| :: IsWord(list[i].file)
  {
    if c.Redir? then RedirList(c.cmd) + [Redirection(c.file, c.input)] else []
  }

  function PrintWords(argv: seq<string>): string {
    if argv == [] then "" else argv[0] + " " + PrintWords(argv[1..])
  }

  function PrintRedirs(list: seq<Redirection>): string {
    if list == [] then ""
    else (if list[0].input then "<" else ">") + list[0].file + " " + PrintRedirs(list[1..])
  }

  predicate Compound(c: Cmd) {
    c.Pipe? || c.List? || c.Back?
  }

  /** Parentheses go around whatever parseexec does not accept bare. */
  function PrintExec(c: Cmd): string
    decreases Size(c), 1
  {
    var b := Base(c);
    (if b.Exec? then PrintWords(b.argv) else "(" + PrintCompound(b) + ")") + PrintRedirs(RedirList(c))
  }

  function PrintPipe(c: Cmd): string
    decreases Size(c), 2
  {
    if c.Pipe? then PrintExec(c.left) + "|" + PrintPipe(c.right) else PrintExec(c)
  }

  function PrintBack(c: Cmd): string
    decreases Size(c), 3
  {
    if c.Back? then PrintBack(c.cmd) + "&" else PrintPipe(c)
  }

  function PrintCompound(c: Cmd): string
    requires Compound(c)
    decreases Size(c), 0
  {
    match c
    case List(l, r) => PrintBack(l) + ";" + PrintLine(r)
    case Back(c') => PrintBack(c') + "&"
    case Pipe(l, r) => PrintExec(l) + "|" + PrintPipe(r)
  }

  /** A command as a whole line, with parentheses where they are needed. */
  function PrintLine(c: Cmd): string
    decreases Size(c), 4
  {
    if Compound(c) then PrintCompound(c) else PrintExec(c)
  }

  // ---------------------------------------------------------------- tokens of printed text

  lemma {:induction false} WordSpan(w: string, t: string)
    requires forall i | 0 <= i < |w| :: !IsSpace(w[i]) && !IsSymbol(w[i])
    ensures WordLength(w + " " + t) == |w|
  {
    var s := w + " " + t;
    if w != "" {
      assert s[0] == w[0] && s[1..] == w[1..] + " " + t;
      WordSpan(w[1..], t);
    }
  }

  lemma WordToken(w: string, t: string)
    requires IsWord(w)
    ensures Skip(w + " " + t) == w + " " + t
    ensures NextToken(w + " " + t) == Token('a', w, Skip(t))
    ensures !Peek(w + " " + t, "<>") && !Peek(w + " " + t, "|)&;") && !Peek(w + " " + t, "(")
  {
    var s := w + " " + t;
    assert s[0] == w[0];
    WordSpan(w, t);
    assert s[|w|..] == " " + t;
    assert Skip(" " + t) == Skip(t) by { assert (" " + t)[1..] == t; }
  }

  lemma SymbolToken(c: char, t: string)
    requires IsSymbol(c) && (c == '>' ==> t == "" || t[0] != '>')
    ensures Skip([c] + t) == [c] + t
    ensures NextToken([c] + t) == Token(c, "", Skip(t))
  {
    assert ([c] + t)[1..] == t;
  }

  // ---------------------------------------------------------------- the round trip

  lemma {:induction false} RedirsCons(r: Redirection, more: string)
    requires IsWord(r.file) && ParseRedirs(more).Redirs?
    ensures ParseRedirs([if r.input then '<' else '>'] + (r.file + " " + more))
         == Redirs([r] + ParseRedirs(more).list, ParseRedirs(more).rest)
  {
    var op := if r.input then '<' else '>';
    var s := r.file + " " + more;
    WordToken(r.file, more);
    SymbolToken(op, s);
    SkipRedirs(more);
    assert Peek([op] + s, "<>");
  }

  lemma {:induction false} RedirsRoundTrip(list: seq<Redirection>, t: string)
    requires forall i | 0 <= i < |list| :: IsWord(list[i].file)
    requires !Peek(t, "<>")
    ensures ParseRedirs(PrintRedirs(list) + t) == Redirs(list, Skip(t))
  {
    if list == [] {
      assert PrintRedirs(list) + t == t;
    } else {
      var more := PrintRedirs(list[1..]) + t;
      assert PrintRedirs(list) + t == [if list[0].input then '<' else '>'] + (list[0].file + " " + more);
      RedirsRoundTrip(list[1..], t);
      RedirsCons(list[0], more);
      assert [list[0]] + list[1..] == list;
    }
  }

  /** What may follow a simple command: the end, or one of the symbols that end it. */
  predicate Follow(t: string, toks: string) {
    Skip(t) == "" || Peek(t, toks)
  }

  lemma {:induction false} ArgsEnd(argv: seq<string>, list: seq<Redirection>, t: string)
    requires Follow(t, "|)&;") && forall i | 0 <= i < |list| :: IsWord(list[i].file)
    ensures ParseArgs(PrintRedirs(list) + t, argv, []) == Ok(Wrap(Exec(argv), list), Skip(t))
  {
    RedirsRoundTrip(list, t);
    SkipTwice(t);
    assert [] + list == list;
  }

  lemma {:induction false} ArgsCons(argv: seq<string>, w: string, more: string)
    requires IsWord(w) && |argv| + 1 < MAXARGS
    ensures ParseArgs(w + " " + more, argv, []) == ParseArgs(more, argv + [w], [])
  {
    var s := w + " " + more;
    WordToken(w, more);
    assert ParseRedirs(s) == Redirs([], s) && [] + ParseRedirs(s).list == [];
    assert ParseArgs(s, argv, []) == ParseArgs(NextToken(s).rest, argv + [w], []);
    SkipArgs(more, argv + [w], []);
  }

  lemma {:induction false} ArgsRoundTrip(pre: seq<string>, argv: seq<string>, list: seq<Redirection>, t: string)
    requires Follow(t, "|)&;") && |pre| + |argv| < MAXARGS
    requires forall i | 0 <= i < |argv| :: IsWord(argv[i])
    requires forall i | 0 <= i < |list| :: IsWord(list[i].file)
    ensures ParseArgs(PrintWords(argv) + PrintRedirs(list) + t, pre, []) == Ok(Wrap(Exec(pre + argv), list), Skip(t))
    decreases |argv|
  {
    if argv == [] {
      assert PrintWords(argv) + PrintRedirs(list) + t == PrintRedirs(list) + t;
      assert pre + argv == pre;
      ArgsEnd(pre, list, t);
    } else {
      var more := PrintWords(argv[1..]) + PrintRedirs(list) + t;
      assert PrintWords(argv) + PrintRedirs(list) + t == argv[0] + " " + more;
      assert pre + [argv[0]] + argv[1..] == pre + argv;
      ArgsCons(pre, argv[0], more);
      ArgsRoundTrip(pre + [argv[0]], argv[1..], list, t);
    }
  }

  lemma {:induction false} WrapMore(c: Cmd, list: seq<Redirection>, r: Redirection)
    ensures Wrap(c, list + [r]) == Redir(Wrap(c, list), r.file, r.input)
    decreases |list|
  {
    if list == [] {
      assert list + [r] == [r];
    } else {
      assert (list + [r])[1..] == list[1..] + [r];
      WrapMore(Redir(c, list[0].file, list[0].input), list[1..], r);
    }
  }

  lemma {:induction false} WrapBase(c: Cmd)
    ensures Wrap(Base(c), RedirList(c)) == c
  {
    if c.Redir? {
      WrapBase(c.cmd);
      WrapMore(Base(c), RedirList(c.cmd), Redirection(c.file, c.input));
    }
  }

  /** The first character of a simple command and what follows it is no parenthesis. */
  lemma NotBlock(argv: seq<string>, list: seq<Redirection>, t: string)
    requires Follow(t, "|)&;") && forall i | 0 <= i < |argv| :: IsWord(argv[i])
    ensures !Peek(PrintWords(argv) + PrintRedirs(list) + t, "(")
  {
    var s := PrintWords(argv) + PrintRedirs(list) + t;
    if argv != [] {
      assert s[0] == argv[0][0];
    } else if list != [] {
      assert s[0] == if list[0].input then '<' else '>';
    } else {
      assert s == t;
    }
  }

  lemma {:induction false} BlockParse(b: Cmd, body: string, list: seq<Redirection>, t: string)
    requires var after := ")" + (PrintRedirs(list) + t);
             ParseLine(body + after) == Ok(b, after)
    requires Follow(t, "|)&;") && forall i | 0 <= i < |list| :: IsWord(list[i].file)
    ensures ParseExec("(" + (body + (")" + (PrintRedirs(list) + t)))) == Ok(Wrap(b, list), Skip(t))
  {
    hide ParseLine, ParseRedirs, PrintRedirs, Wrap;
    var after := ")" + (PrintRedirs(list) + t);
    SymbolToken('(', body + after);
    SymbolToken(')', PrintRedirs(list) + t);
    SkipLine(body + after);
    SkipRedirs(PrintRedirs(list) + t);
    RedirsRoundTrip(list, t);
  }

  lemma {:induction false} PipeParse(l: Cmd, left: string, r: Cmd, right: string, rest: string)
    requires ParseExec(left + ("|" + right)) == Ok(l, "|" + right)
    requires ParsePipe(right) == Ok(r, rest)
    ensures ParsePipe(left + ("|" + right)) == Ok(Pipe(l, r), rest)
  {
    SymbolToken('|', right);
    SkipPipe(right);
  }

  /** The line parser on a first part and what comes behind it. */
  predicate BackParses(s: string, c: Cmd, t: string) {
    ParsePipe(s).Ok? && ParseBack(ParsePipe(s).cmd, ParsePipe(s).rest) == ParseBack(c, t)
  }

  lemma {:induction false} BackParse(c: Cmd, t: string)
    ensures ParseBack(c, "&" + t) == ParseBack(Back(c), t)
  {
    SymbolToken('&', t);
    SkipBack(Back(c), t);
  }

  lemma {:induction false} LineEnds(s: string, c: Cmd, t: string)
    requires BackParses(s, c, t) && Follow(t, ")")
    ensures ParseLine(s) == Ok(c, Skip(t))
  {
    SkipTwice(t);
  }

  lemma {:induction false} LineContinues(l: Cmd, s: string, r: Cmd, right: string, rest: string)
    requires BackParses(s, l, ";" + right) && ParseLine(right) == Ok(r, rest)
    ensures ParseLine(s) == Ok(List(l, r), rest)
  {
    SymbolToken(';', right);
    SkipLine(right);
    assert ParseBack(l, ";" + right) == Ok(l, ";" + right);
  }

  lemma {:induction false} BlockText(c: Cmd, t: string)
    requires !Base(c).Exec?
    ensures PrintExec(c) + t == "(" + (PrintCompound(Base(c)) + (")" + (PrintRedirs(RedirList(c)) + t)))
  {
  }

  lemma {:induction false} ExecRoundTrip(c: Cmd, t: string)
    requires Printable(c) && Follow(t, "|)&;")
    ensures ParseExec(PrintExec(c) + t) == Ok(c, Skip(t))
    decreases Size(c), 1
  {
    var b, list := Base(c), RedirList(c);
    WrapBase(c);
    if b.Exec? {
      NotBlock(b.argv, list, t);
      ArgsRoundTrip([], b.argv, list, t);
      assert [] + b.argv == b.argv;
    } else {
      var after := ")" + (PrintRedirs(list) + t);
      SymbolToken(')', PrintRedirs(list) + t);
      CompoundRoundTrip(b, after);
      BlockParse(b, PrintCompound(b), list, t);
      BlockText(c, t);
    }
  }

  lemma {:induction false} PipeRoundTrip(c: Cmd, t: string)
    requires Printable(c) && Follow(t, ")&;")
    ensures ParsePipe(PrintPipe(c) + t) == Ok(c, Skip(t))
    decreases Size(c), 2
  {
    if c.Pipe? {
      PairRoundTrip(c.left, c.right, t);
      assert PrintPipe(c) + t == PrintExec(c.left) + ("|" + (PrintPipe(c.right) + t));
    } else {
      ExecRoundTrip(c, t);
      SkipTwice(t);
    }
  }

  lemma {:induction false} PairRoundTrip(l: Cmd, r: Cmd, t: string)
    requires Printable(l) && Printable(r) && Follow(t, ")&;")
    ensures ParsePipe(PrintExec(l) + ("|" + (PrintPipe(r) + t))) == Ok(Pipe(l, r), Skip(t))
    decreases Size(l) + Size(r), 3
  {
    var right := PrintPipe(r) + t;
    SymbolToken('|', right);
    ExecRoundTrip(l, "|" + right);
    PipeRoundTrip(r, t);
    PipeParse(l, PrintExec(l), r, right, Skip(t));
  }

  lemma {:induction false} BackRoundTrip(c: Cmd, t: string)
    requires Printable(c) && Follow(t, ")&;")
    ensures BackParses(PrintBack(c) + t, c, t)
    decreases Size(c), 3
  {
    if c.Back? {
      SymbolToken('&', t);
      BackRoundTrip(c.cmd, "&" + t);
      BackParse(c.cmd, t);
      assert PrintBack(c) + t == PrintBack(c.cmd) + ("&" + t);
    } else {
      PipeRoundTrip(c, t);
      SkipBack(c, t);
    }
  }

  lemma {:induction false} CompoundRoundTrip(c: Cmd, t: string)
    requires Compound(c) && Printable(c) && Follow(t, ")")
    ensures ParseLine(PrintCompound(c) + t) == Ok(c, Skip(t))
    decreases Size(c), 0
  {
    match c
    case List(l, r) => SequenceRoundTrip(l, r, t);
    case Back(c') => BackgroundRoundTrip(c', t);
    case Pipe(l, r) =>
      PairRoundTrip(l, r, t);
      SkipBack(c, t);
      assert PrintCompound(c) + t == PrintExec(l) + ("|" + (PrintPipe(r) + t));
      LineEnds(PrintCompound(c) + t, c, t);
  }

  lemma {:induction false} SequenceText(l: Cmd, r: Cmd, t: string)
    ensures PrintCompound(List(l, r)) + t == PrintBack(l) + (";" + (PrintLine(r) + t))
  {
  }

  lemma {:induction false} SequenceRoundTrip(l: Cmd, r: Cmd, t: string)
    requires Printable(l) && Printable(r) && Follow(t, ")")
    ensures ParseLine(PrintCompound(List(l, r)) + t) == Ok(List(l, r), Skip(t))
    decreases Size(l) + Size(r), 5
  {
    var right := PrintLine(r) + t;
    SymbolToken(';', right);
    BackRoundTrip(l, ";" + right);
    LineRoundTrip(r, t);
    SequenceText(l, r, t);
    LineContinues(l, PrintCompound(List(l, r)) + t, r, right, Skip(t));
  }

  lemma {:induction false} BackgroundRoundTrip(c: Cmd, t: string)
    requires Printable(c) && Follow(t, ")")
    ensures ParseLine(PrintCompound(Back(c)) + t) == Ok(Back(c), Skip(t))
    decreases Size(c), 5
  {
    SymbolToken('&', t);
    BackRoundTrip(c, "&" + t);
    BackParse(c, t);
    assert PrintCompound(Back(c)) + t == PrintBack(c) + ("&" + t);
    LineEnds(PrintCompound(Back(c)) + t, Back(c), t);
  }

  lemma {:induction false} LineRoundTrip(c: Cmd, t: string)
    requires Printable(c) && Follow(t, ")")
    ensures ParseLine(PrintLine(c) + t) == Ok(c, Skip(t))
    decreases Size(c), 4
  {
    if Compound(c) {
      CompoundRoundTrip(c, t);
    } else {
      BackRoundTrip(c, t);
      assert PrintLine(c) == PrintBack(c);
      LineEnds(PrintLine(c) + t, c, t);
    }
  }

  /** The shell reads back every printable command tree from its printed line. */
  lemma RoundTrip(c: Cmd)
    requires Printable(c)
    ensures ParseCmd(PrintLine(c)) == Ok(c, "")
  {
    LineRoundTrip(c, "");
    assert PrintLine(c) + "" == PrintLine(c);
  }

  // ---------------------------------------------------------------- the parser yields nothing else

  lemma {:induction false} SpanIsWord(s: string)
    ensures forall i | 0 <= i < WordLength(s) :: !IsSpace(s[i]) && !IsSymbol(s[i])
  {
    if WordLength(s) > 0 {
      SpanIsWord(s[1..]);
      assert forall i | 1 <= i < WordLength(s) :: s[i] == s[1..][i - 1];
    }
  }

  lemma TokenIsWord(s: string)
    ensures NextToken(s).kind == 'a' ==> IsWord(NextToken(s).word)
  {
    SpanIsWord(Skip(s));
  }

  predicate WordsOnly(list: seq<Redirection>) {
    forall i | 0 <= i < |list| :: IsWord(list[i].file)
  }

  lemma {:induction false} RedirsPrintable(s: string)
    ensures ParseRedirs(s).Redirs? ==> WordsOnly(ParseRedirs(s).list)
    decreases |s|
  {
    if Peek(s, "<>") {
      var file := NextToken(NextToken(s).rest);
      TokenIsWord(NextToken(s).rest);
      if file.kind == 'a' {
        RedirsPrintable(file.rest);
      }
    }
  }

  lemma {:induction false} WrapPrintable(c: Cmd, list: seq<Redirection>)
    requires Printable(c) && WordsOnly(list)
    ensures Printable(Wrap(c, list))
    decreases |list|
  {
    if list != [] {
      WrapPrintable(Redir(c, list[0].file, list[0].input), list[1..]);
    }
  }

  lemma {:induction false} ArgsPrintable(s: string, argv: seq<string>, list: seq<Redirection>)
    requires Printable(Exec(argv)) && WordsOnly(list)
    ensures ParseArgs(s, argv, list).Ok? ==> Printable(ParseArgs(s, argv, list).cmd)
    decreases |s|
  {
    var rd := ParseRedirs(s);
    RedirsPrintable(s);
    if rd.Redirs? {
      var t := NextToken(rd.rest);
      TokenIsWord(rd.rest);
      WrapPrintable(Exec(argv), list + rd.list);
      if !Peek(rd.rest, "|)&;") && t.kind == 'a' && |argv| + 1 < MAXARGS {
        ArgsPrintable(t.rest, argv + [t.word], list + rd.list);
      }
    }
  }

  lemma {:induction false} ExecPrintable(s: string)
    ensures ParseExec(s).Ok? ==> Printable(ParseExec(s).cmd)
    decreases |s|, 1
  {
    if Peek(s, "(") {
      var line := ParseLine(NextToken(s).rest);
      LinePrintable(NextToken(s).rest);
      if line.Ok? && Peek(line.rest, ")") {
        var rd := ParseRedirs(NextToken(line.rest).rest);
        RedirsPrintable(NextToken(line.rest).rest);
        if rd.Redirs? {
          WrapPrintable(line.cmd, rd.list);
        }
      }
    } else {
      ArgsPrintable(s, [], []);
    }
  }

  lemma {:induction false} PipePrintable(s: string)
    ensures ParsePipe(s).Ok? ==> Printable(ParsePipe(s).cmd)
    decreases |s|, 2
  {
    ExecPrintable(s);
    var left := ParseExec(s);
    if left.Ok? && Peek(left.rest, "|") {
      PipePrintable(NextToken(left.rest).rest);
    }
  }

  lemma {:induction false} BackPrintable(c: Cmd, s: string)
    requires Printable(c)
    ensures Printable(ParseBack(c, s).cmd)
    decreases |s|
  {
    if Peek(s, "&") {
      BackPrintable(Back(c), NextToken(s).rest);
    }
  }

  lemma {:induction false} LinePrintable(s: string)
    ensures ParseLine(s).Ok? ==> Printable(ParseLine(s).cmd)
    decreases |s|, 3
  {
    PipePrintable(s);
    var first := ParsePipe(s);
    if first.Ok? {
      BackPrintable(first.cmd, first.rest);
      var back := ParseBack(first.cmd, first.rest);
      if Peek(back.rest, ";") {
        LinePrintable(NextToken(back.rest).rest);
      }
    }
  }

  /** The trees that lines stand for are exactly the printable ones, and printing picks one line for each. */
  lemma ParsedIsPrintable(s: string)
    requires ParseCmd(s).Ok?
    ensures Printable(ParseCmd(s).cmd)
    ensures ParseCmd(PrintLine(ParseCmd(s).cmd)) == ParseCmd(s)
  {
    LinePrintable(s);
    RoundTrip(ParseCmd(s).cmd);
  }
}
