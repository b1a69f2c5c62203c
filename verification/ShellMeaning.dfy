/** The parser of sh.c computes the grammar: a line parses to a tree exactly if its tokens stand for the tree. */
module ShellMeaning {
  import opened ShellParser
  import opened ShellGrammar

  // ---------------------------------------------------------------- tokens of the rest of a line

  lemma ToksHead(s: string)
    ensures var t := NextToken(s);
            && (Toks(s) == [] <==> t.kind == '0') && (Toks(s) == [] <==> Skip(s) == "")
            && (Toks(s) != [] ==> Toks(s)[0] == PieceOf(t) && Toks(s)[1..] == Toks(t.rest) && |t.rest| < |s|)
            && (Toks(s) != [] && Toks(s)[0].Symbol? ==> t.kind == Toks(s)[0].c && IsSymbol(t.kind))
            && (Toks(s) != [] && Toks(s)[0].Word? ==> t.kind == 'a' && t.word == Toks(s)[0].w)
            && (Toks(s) != [] && Toks(s)[0].Append? ==> t.kind == '+')
            && (Toks(s) != [] ==> !Toks(s)[0].Blank?)
  {
  }

  /** A look ahead for symbols sees the first token. */
  lemma PeekIs(s: string, toks: string)
    requires forall i | 0 <= i < |toks| :: IsSymbol(toks[i])
    ensures Peek(s, toks) <==>
              && Toks(s) != []
              && ((Toks(s)[0].Symbol? && Toks(s)[0].c in toks) || (Toks(s)[0].Append? && '>' in toks))
  {
    var t := Skip(s);
    if t != "" && !IsSymbol(t[0]) {
      assert t[0] !in toks;
    }
  }

  /** What follows is nothing, or one of these symbols. */
  predicate Stops(us: seq<Piece>, toks: string) {
    us == [] || (us[0].Symbol? && us[0].c in toks)
  }

  // ---------------------------------------------------------------- redirections

  lemma RedirsStep(s: string) returns (r: string)
    ensures var ts := Toks(s);
            if ts == [] || !IsRedirOp(ts[0]) then ParseRedirs(s) == Redirs([], Skip(s))
            else if |ts| == 1 || !ts[1].Word? then ParseRedirs(s) == RedirErr
            else && |r| < |s| && Toks(r) == ts[2..]
                 && ParseRedirs(s) == WithRedirs([Redirection(ts[1].w, ts[0] == Symbol('<'))], ParseRedirs(r))
  {
    hide NextToken, Peek, Toks;
    ToksHead(s);
    PeekIs(s, "<>");
    r := s;
    if Toks(s) != [] && IsRedirOp(Toks(s)[0]) {
      var t := NextToken(s);
      ToksHead(t.rest);
      r := NextToken(t.rest).rest;
      if |Toks(s)| > 1 {
        assert Toks(s)[1..][1..] == Toks(s)[2..];
      }
    }
  }

  lemma WithBoth(a: seq<Redirection>, b: seq<Redirection>, r: RedirParse)
    ensures WithRedirs(a, WithRedirs(b, r)) == WithRedirs(a + b, r)
  {
    if r.Redirs? {
      assert a + (b + r.list) == a + b + r.list;
    }
  }

  lemma {:induction false} WrapLast(c: Cmd, list: seq<Redirection>, x: Redirection)
    ensures Wrap(c, list + [x]) == Redir(Wrap(c, list), x.file, x.input)
    decreases |list|
  {
    if list == [] {
      assert list + [x] == [x] && [x][1..] == [];
    } else {
      assert (list + [x])[1..] == list[1..] + [x];
      WrapLast(Redir(c, list[0].file, list[0].input), list[1..], x);
    }
  }

  lemma {:induction false} WrapAround(c: Cmd, list: seq<Redirection>)
    ensures Wrap(c, list) == Around(c, list)
    decreases |list|
  {
    if list != [] {
      var n := |list| - 1;
      WrapAround(c, list[..n]);
      WrapLast(c, list[..n], list[n]);
      assert list[..n] + [list[n]] == list;
    }
  }

  // ---------------------------------------------------------------- simple commands

  lemma SimpleEnds(ts: seq<Piece>, argv: seq<string>, list: seq<Redirection>)
    requires IsSimple(ts, argv, list) && ts != []
    ensures ts[|ts| - 1].Word?
  {
  }

  lemma SimpleWord(ts: seq<Piece>, argv: seq<string>, list: seq<Redirection>, w: string)
    requires IsSimple(ts, argv, list) && |argv| + 1 < MAXARGS
    ensures IsSimple(ts + [Word(w)], argv + [w], list)
  {
    var us, all := ts + [Word(w)], argv + [w];
    assert us[..|us| - 1] == ts && all[..|all| - 1] == argv;
    if ts != [] {
      SimpleEnds(ts, argv, list);
      assert us[|us| - 2] == ts[|ts| - 1];
    }
  }

  lemma SimpleRedir(ts: seq<Piece>, argv: seq<string>, list: seq<Redirection>, op: Piece, w: string)
    requires IsSimple(ts, argv, list) && IsRedirOp(op)
    ensures IsSimple(ts + [op, Word(w)], argv, list + [Redirection(w, op == Symbol('<'))])
  {
    var us, all := ts + [op, Word(w)], list + [Redirection(w, op == Symbol('<'))];
    assert us[..|us| - 2] == ts && all[..|all| - 1] == list;
  }

  lemma {:induction false} SimpleStarts(ts: seq<Piece>, argv: seq<string>, list: seq<Redirection>)
    requires IsSimple(ts, argv, list)
    ensures |argv| < MAXARGS && (ts != [] ==> ts[0].Word? || IsRedirOp(ts[0]))
    decreases |ts|
  {
    var n := |ts|;
    if n > 1 && IsRedirOp(ts[n - 2]) {
      SimpleStarts(ts[..n - 2], argv, list[..|list| - 1]);
    } else if n > 0 {
      SimpleStarts(ts[..n - 1], argv[..|argv| - 1], list);
    }
  }

  /** The argument loop, token by token. */
  lemma ArgsStep(s: string, argv: seq<string>, list: seq<Redirection>) returns (r: string)
    ensures var ts, p := Toks(s), ParseArgs(s, argv, list);
            if Stops(ts, "|)&;") then p == Ok(Wrap(Exec(argv), list), r) && Toks(r) == ts
            else if IsRedirOp(ts[0]) then
              if |ts| == 1 || !ts[1].Word? then p == Err
              else && |r| < |s| && Toks(r) == ts[2..]
                   && p == ParseArgs(r, argv, list + [Redirection(ts[1].w, ts[0] == Symbol('<'))])
            else if !ts[0].Word? || |argv| + 1 >= MAXARGS then p == Err
            else |r| < |s| && Toks(r) == ts[1..] && p == ParseArgs(r, argv + [ts[0].w], list)
  {
    hide NextToken, Peek, Toks, ParseRedirs, Wrap, Skip;
    var ts := Toks(s);
    r := RedirsStep(s);
    if ts != [] && IsRedirOp(ts[0]) {
      if |ts| > 1 && ts[1].Word? {
        ArgsRedir(s, argv, list, Redirection(ts[1].w, ts[0] == Symbol('<')), r);
      }
    } else {
      r := ArgsToken(s, argv, list);
    }
  }

  lemma ArgsRedir(s: string, argv: seq<string>, list: seq<Redirection>, x: Redirection, r: string)
    requires ParseRedirs(s) == WithRedirs([x], ParseRedirs(r)) && |r| < |s|
    ensures ParseArgs(s, argv, list) == ParseArgs(r, argv, list + [x])
  {
    hide NextToken, Peek, ParseRedirs, Wrap, Skip;
    if ParseRedirs(r).Redirs? {
      var more := ParseRedirs(r).list;
      assert list + ([x] + more) == list + [x] + more;
    }
  }

  lemma ArgsToken(s: string, argv: seq<string>, list: seq<Redirection>) returns (r: string)
    requires ParseRedirs(s) == Redirs([], Skip(s)) && (Toks(s) != [] ==> !IsRedirOp(Toks(s)[0]))
    ensures var ts, p := Toks(s), ParseArgs(s, argv, list);
            if Stops(ts, "|)&;") then p == Ok(Wrap(Exec(argv), list), r) && Toks(r) == ts
            else if !ts[0].Word? || |argv| + 1 >= MAXARGS then p == Err
            else |r| < |s| && Toks(r) == ts[1..] && p == ParseArgs(r, argv + [ts[0].w], list)
  {
    hide NextToken, Peek, Toks, ParseRedirs, Wrap, Skip;
    var t := Skip(s);
    SkipToks(s);
    SkipToken(s);
    ToksHead(t);
    PeekIs(t, "|)&;");
    assert list + [] == list;
    if Peek(t, "|)&;") {
      r := Skip(t);
      SkipToks(t);
    } else {
      r := NextToken(t).rest;
      if Toks(s) == [] {
        EmptyToks(r);
      }
    }
  }

  lemma EmptyToks(r: string)
    ensures r == "" ==> Toks(r) == []
  {
  }

  // ---------------------------------------------------------------- what parses stands for its tree

  lemma {:induction false} ArgsSound(s: string, ts0: seq<Piece>, argv: seq<string>, list: seq<Redirection>)
    returns (ts: seq<Piece>)
    requires IsSimple(ts0, argv, list) && ParseArgs(s, argv, list).Ok?
    ensures Toks(s) == ts + Toks(ParseArgs(s, argv, list).rest) && IsExec(ts0 + ts, ParseArgs(s, argv, list).cmd)
    decreases |s|
  {
    hide Toks, ParseArgs, IsSimple, IsExec, Wrap, Around;
    var us := Toks(s);
    var r := ArgsStep(s, argv, list);
    if Stops(us, "|)&;") {
      ts := [];
      WrapAround(Exec(argv), list);
      assert ts0 + [] == ts0 && us == [] + us;
      SimpleIsExec(ts0, argv, list);
    } else if IsRedirOp(us[0]) {
      SimpleRedir(ts0, argv, list, us[0], us[1].w);
      ts := ArgsSound(r, ts0 + [us[0], us[1]], argv, list + [Redirection(us[1].w, us[0] == Symbol('<'))]);
      assert ts0 + [us[0], us[1]] + ts == ts0 + ([us[0], us[1]] + ts);
      assert us == [us[0], us[1]] + us[2..];
      ts := [us[0], us[1]] + ts;
    } else {
      SimpleWord(ts0, argv, list, us[0].w);
      ts := ArgsSound(r, ts0 + [us[0]], argv + [us[0].w], list);
      assert ts0 + [us[0]] + ts == ts0 + ([us[0]] + ts);
      assert us == [us[0]] + us[1..];
      ts := [us[0]] + ts;
    }
  }

  lemma SimpleIsExec(ts: seq<Piece>, argv: seq<string>, list: seq<Redirection>)
    requires IsSimple(ts, argv, list)
    ensures IsExec(ts, Around(Exec(argv), list))
  {
  }

  lemma {:induction false} RedirsSound(s: string, ts0: seq<Piece>, c: Cmd) returns (ts: seq<Piece>)
    requires IsBlock(ts0, c) && ParseRedirs(s).Redirs?
    ensures Toks(s) == ts + Toks(ParseRedirs(s).rest) && IsBlock(ts0 + ts, Wrap(c, ParseRedirs(s).list))
    decreases |s|
  {
    hide Toks, IsBlock, ParseRedirs;
    var us := Toks(s);
    var r := RedirsStep(s);
    if us == [] || !IsRedirOp(us[0]) {
      ts := [];
      SkipToks(s);
      assert ts0 + [] == ts0 && us == [] + us;
    } else {
      var x := Redirection(us[1].w, us[0] == Symbol('<'));
      BlockRedir(ts0, c, us[0], us[1].w);
      ts := RedirsSound(r, ts0 + [us[0], us[1]], Redir(c, x.file, x.input));
      assert ts0 + [us[0], us[1]] + ts == ts0 + ([us[0], us[1]] + ts);
      assert us == [us[0], us[1]] + us[2..];
      assert ([x] + ParseRedirs(r).list)[1..] == ParseRedirs(r).list;
      ts := [us[0], us[1]] + ts;
    }
  }

  lemma BlockRedir(ts: seq<Piece>, c: Cmd, op: Piece, w: string)
    requires IsBlock(ts, c) && IsRedirOp(op)
    ensures IsBlock(ts + [op, Word(w)], Redir(c, w, op == Symbol('<')))
  {
    var us := ts + [op, Word(w)];
    assert us[..|us| - 2] == ts;
  }

  lemma {:induction false} ExecSound(s: string) returns (ts: seq<Piece>)
    requires ParseExec(s).Ok?
    ensures Toks(s) == ts + Toks(ParseExec(s).rest) && IsExec(ts, ParseExec(s).cmd)
    decreases |s|, 1
  {
    hide Toks, ParseArgs, IsSimple, IsBlock, ParseBlock;
    if Peek(s, "(") {
      ts := BlockSound(s);
    } else {
      assert IsSimple([], [], []) by {
        SimpleNone();
      }
      ts := ArgsSound(s, [], [], []);
      assert [] + ts == ts;
    }
  }

  lemma SimpleNone()
    ensures IsSimple([], [], [])
  {
  }

  lemma {:induction false} BlockSound(s: string) returns (ts: seq<Piece>)
    requires ParseBlock(s).Ok?
    ensures Toks(s) == ts + Toks(ParseBlock(s).rest) && IsBlock(ts, ParseBlock(s).cmd)
    decreases |s|, 0
  {
    hide Toks, ParseLine, IsLine, IsBlock, NextToken, Peek, ParseRedirs, Wrap;
    PeekIs(s, "(");
    ToksHead(s);
    var r := NextToken(s).rest;
    var inner := LineSound(r);
    var line := ParseLine(r);
    PeekIs(line.rest, ")");
    ToksHead(line.rest);
    var open, close := Symbol('('), Symbol(')');
    var ts0 := [open] + inner + [close];
    BlockOf(inner, line.cmd);
    var q := NextToken(line.rest).rest;
    var more := RedirsSound(q, ts0, line.cmd);
    ts := ts0 + more;
    Assemble(Toks(s), open, inner, Toks(line.rest), close, Toks(q), more, Toks(ParseRedirs(q).rest));
  }

  lemma Assemble(us: seq<Piece>, open: Piece, inner: seq<Piece>, mid: seq<Piece>, close: Piece, q: seq<Piece>,
                 more: seq<Piece>, rest: seq<Piece>)
    requires us != [] && us[0] == open && us[1..] == inner + mid
    requires mid != [] && mid[0] == close && mid[1..] == q && q == more + rest
    ensures us == [open] + inner + [close] + more + rest
  {
    assert mid == [close] + more + rest;
    assert us == [open] + (inner + mid);
  }

  lemma BlockOf(inner: seq<Piece>, c: Cmd)
    requires IsLine(inner, c)
    ensures IsBlock([Symbol('(')] + inner + [Symbol(')')], c)
  {
    var ts := [Symbol('(')] + inner + [Symbol(')')];
    assert ts[1..|ts| - 1] == inner;
  }

  lemma {:induction false} PipeSound(s: string) returns (ts: seq<Piece>)
    requires ParsePipe(s).Ok?
    ensures Toks(s) == ts + Toks(ParsePipe(s).rest) && IsPipe(ts, ParsePipe(s).cmd)
    decreases |s|, 2
  {
    hide Toks, ParseExec, IsExec, NextToken, Peek;
    ts := ExecSound(s);
    var left := ParseExec(s);
    PeekIs(left.rest, "|");
    ToksHead(left.rest);
    if !Peek(left.rest, "|") {
      SkipToks(left.rest);
    } else {
      var q := NextToken(left.rest).rest;
      var right := PipeSound(q);
      PipeOf(ts, left.cmd, right, ParsePipe(q).cmd);
      Between(Toks(s), ts, Toks(left.rest), Symbol('|'), Toks(q), right, Toks(ParsePipe(q).rest));
      ts := ts + [Symbol('|')] + right;
    }
  }

  lemma Between(us: seq<Piece>, left: seq<Piece>, mid: seq<Piece>, x: Piece, q: seq<Piece>, right: seq<Piece>,
                rest: seq<Piece>)
    requires us == left + mid && mid != [] && mid[0] == x && mid[1..] == q && q == right + rest
    ensures us == left + [x] + right + rest
  {
    assert mid == [x] + right + rest;
  }

  lemma PipeOf(ts: seq<Piece>, c: Cmd, us: seq<Piece>, d: Cmd)
    requires IsExec(ts, c) && IsPipe(us, d)
    ensures IsPipe(ts + [Symbol('|')] + us, Pipe(c, d))
  {
    hide IsExec;
    var all, i := ts + [Symbol('|')] + us, |ts|;
    assert all[..i] == ts && all[i + 1..] == us && all[i] == Symbol('|');
    assert PipeAt(all, Pipe(c, d), i);
  }

  lemma {:induction false} BackSound(c: Cmd, s: string, ts0: seq<Piece>) returns (ts: seq<Piece>)
    requires IsBack(ts0, c)
    ensures Toks(s) == ts + Toks(ParseBack(c, s).rest) && IsBack(ts0 + ts, ParseBack(c, s).cmd)
    decreases |s|
  {
    hide Toks, IsBack, NextToken, Peek;
    PeekIs(s, "&");
    ToksHead(s);
    if Peek(s, "&") {
      var q, amp := NextToken(s).rest, Symbol('&');
      BackOf(ts0, c);
      ts := BackSound(Back(c), q, ts0 + [amp]);
      assert ts0 + [amp] + ts == ts0 + ([amp] + ts);
      assert Toks(s) == [amp] + Toks(s)[1..];
      ts := [amp] + ts;
    } else {
      ts := [];
      SkipToks(s);
      assert ts0 + [] == ts0 && Toks(s) == [] + Toks(s);
    }
  }

  lemma BackOf(ts: seq<Piece>, c: Cmd)
    requires IsBack(ts, c)
    ensures IsBack(ts + [Symbol('&')], Back(c))
  {
    var us := ts + [Symbol('&')];
    assert us[..|us| - 1] == ts;
  }

  lemma {:induction false} LineSound(s: string) returns (ts: seq<Piece>)
    requires ParseLine(s).Ok?
    ensures Toks(s) == ts + Toks(ParseLine(s).rest) && IsLine(ts, ParseLine(s).cmd)
    decreases |s|, 3
  {
    hide Toks, ParsePipe, ParseBack, IsPipe, IsBack, NextToken, Peek;
    var first := ParsePipe(s);
    ts := PipeSound(s);
    PipeIsBack(ts, first.cmd);
    var more := BackSound(first.cmd, first.rest, ts);
    var back := ParseBack(first.cmd, first.rest);
    assert ts + (more + Toks(back.rest)) == ts + more + Toks(back.rest);
    ts := ts + more;
    PeekIs(back.rest, ";");
    ToksHead(back.rest);
    if !Peek(back.rest, ";") {
      SkipToks(back.rest);
    } else {
      var q := NextToken(back.rest).rest;
      var right := LineSound(q);
      LineOf(ts, back.cmd, right, ParseLine(q).cmd);
      Between(Toks(s), ts, Toks(back.rest), Symbol(';'), Toks(q), right, Toks(ParseLine(q).rest));
      ts := ts + [Symbol(';')] + right;
    }
  }

  lemma PipeIsBack(ts: seq<Piece>, c: Cmd)
    requires IsPipe(ts, c)
    ensures IsBack(ts, c)
  {
  }

  lemma LineOf(ts: seq<Piece>, c: Cmd, us: seq<Piece>, d: Cmd)
    requires IsBack(ts, c) && IsLine(us, d)
    ensures IsLine(ts + [Symbol(';')] + us, List(c, d))
  {
    hide IsBack;
    var all, i := ts + [Symbol(';')] + us, |ts|;
    assert all[..i] == ts && all[i + 1..] == us && all[i] == Symbol(';');
    assert ListAt(all, List(c, d), i);
  }

  // ---------------------------------------------------------------- what stands for a tree parses to it

  /** The argument loop gets to the end of a simple command. */
  lemma {:induction false} ArgsReach(s: string, ts: seq<Piece>, us: seq<Piece>, argv: seq<string>,
                                     list: seq<Redirection>) returns (r: string)
    requires Toks(s) == ts + us && IsSimple(ts, argv, list)
    ensures Toks(r) == us && ParseArgs(s, [], []) == ParseArgs(r, argv, list)
    decreases |ts|
  {
    hide Toks, ParseArgs;
    var n := |ts|;
    if n == 0 {
      r := s;
      assert ts + us == us;
    } else if n > 1 && IsRedirOp(ts[n - 2]) {
      var last := [ts[n - 2], ts[n - 1]];
      assert ts + us == ts[..n - 2] + (last + us);
      var q := ArgsReach(s, ts[..n - 2], last + us, argv, list[..|list| - 1]);
      r := ArgsStep(q, argv, list[..|list| - 1]);
      assert (last + us)[2..] == us && list[..|list| - 1] + [list[|list| - 1]] == list;
    } else {
      var last := [ts[n - 1]];
      assert ts + us == ts[..n - 1] + (last + us);
      var q := ArgsReach(s, ts[..n - 1], last + us, argv[..|argv| - 1], list);
      r := ArgsStep(q, argv[..|argv| - 1], list);
      assert (last + us)[1..] == us && argv[..|argv| - 1] + [argv[|argv| - 1]] == argv;
    }
  }

  /** And parseredirs to the end of redirections. */
  lemma {:induction false} RedirsReach(s: string, ts: seq<Piece>, us: seq<Piece>, list: seq<Redirection>)
    returns (r: string)
    requires Toks(s) == ts + us && IsSimple(ts, [], list)
    ensures Toks(r) == us && ParseRedirs(s) == WithRedirs(list, ParseRedirs(r))
    decreases |ts|
  {
    hide Toks, ParseRedirs;
    var n := |ts|;
    if n == 0 {
      r := s;
      assert ts + us == us;
      WithNone(ParseRedirs(s));
    } else {
      var last := [ts[n - 2], ts[n - 1]];
      assert ts + us == ts[..n - 2] + (last + us);
      var q := RedirsReach(s, ts[..n - 2], last + us, list[..|list| - 1]);
      r := RedirsStep(q);
      assert (last + us)[2..] == us;
      WithBoth(list[..|list| - 1], [list[|list| - 1]], ParseRedirs(r));
      assert list[..|list| - 1] + [list[|list| - 1]] == list;
    }
  }

  /** A block is a line in parentheses and redirections. */
  lemma {:induction false} BlockSplit(ts: seq<Piece>, c: Cmd)
    returns (inner: seq<Piece>, d: Cmd, more: seq<Piece>, list: seq<Redirection>)
    requires IsBlock(ts, c)
    ensures ts == [Symbol('(')] + inner + [Symbol(')')] + more && IsLine(inner, d)
    ensures IsSimple(more, [], list) && c == Wrap(d, list)
    decreases |ts|
  {
    hide IsLine;
    var n := |ts|;
    if n > 1 && ts[0] == Symbol('(') && ts[n - 1] == Symbol(')') && IsLine(ts[1..n - 1], c) {
      inner, d, more, list := ts[1..n - 1], c, [], [];
    } else {
      inner, d, more, list := BlockSplit(ts[..n - 2], c.cmd);
      var x, last := Redirection(c.file, c.input), [ts[n - 2], ts[n - 1]];
      SimpleRedir(more, [], list, ts[n - 2], c.file);
      WrapLast(d, list, x);
      assert ts == ts[..n - 2] + last;
      more, list := more + last, list + [x];
    }
  }

  ghost predicate ParsesTo(p: Parse, c: Cmd, us: seq<Piece>) {
    p.Ok? && p.cmd == c && Toks(p.rest) == us
  }

  lemma {:induction false} ExecComplete(s: string, ts: seq<Piece>, us: seq<Piece>, c: Cmd)
    requires Toks(s) == ts + us && IsExec(ts, c) && Stops(us, "|)&;")
    ensures ParsesTo(ParseExec(s), c, us)
    decreases |ts|, 1
  {
    hide Toks, ParseArgs, ParseBlock, IsBlock, IsSimple, Peek, Wrap;
    PeekIs(s, "(");
    if IsBlock(ts, c) {
      BlockStarts(ts, c);
      BlockComplete(s, ts, us, c);
    } else {
      var argv, list :| IsSimple(ts, argv, list) && c == Around(Exec(argv), list);
      SimpleStarts(ts, argv, list);
      var r := ArgsReach(s, ts, us, argv, list);
      r := ArgsStep(r, argv, list);
      WrapAround(Exec(argv), list);
    }
  }

  lemma {:induction false} BlockStarts(ts: seq<Piece>, c: Cmd)
    requires IsBlock(ts, c)
    ensures ts != [] && ts[0] == Symbol('(')
    decreases |ts|
  {
    hide IsLine;
    var inner, d, more, list := BlockSplit(ts, c);
  }

  lemma {:induction false} BlockComplete(s: string, ts: seq<Piece>, us: seq<Piece>, c: Cmd)
    requires Toks(s) == ts + us && IsBlock(ts, c) && Stops(us, "|)&;")
    ensures ParsesTo(ParseBlock(s), c, us)
    decreases |ts|, 0
  {
    hide Toks, ParseLine, IsLine, IsBlock, IsSimple, NextToken, Peek, ParseRedirs, Wrap, Skip;
    var inner, d, more, list := BlockSplit(ts, c);
    PeekIs(s, "(");
    ToksHead(s);
    var r, behind := NextToken(s).rest, [Symbol(')')] + more + us;
    assert Toks(s) == [Symbol('(')] + (inner + behind);
    LineComplete(r, inner, behind, d);
    var rest := ParseLine(r).rest;
    PeekIs(rest, ")");
    ToksHead(rest);
    var q := NextToken(rest).rest;
    assert behind[1..] == more + us;
    var last := RedirsReach(q, more, us, list);
    var none := RedirsStep(last);
    SkipToks(last);
    assert list + [] == list;
  }

  lemma {:induction false} PipeComplete(s: string, ts: seq<Piece>, us: seq<Piece>, c: Cmd)
    requires Toks(s) == ts + us && IsPipe(ts, c) && Stops(us, ")&;")
    ensures ParsesTo(ParsePipe(s), c, us)
    decreases |ts|, 2
  {
    hide Toks, ParseExec, IsExec, NextToken, Peek, Skip;
    if IsExec(ts, c) {
      ExecComplete(s, ts, us, c);
      PeekIs(ParseExec(s).rest, "|");
      SkipToks(ParseExec(s).rest);
    } else {
      var i: nat :| PipeAt(ts, c, i);
      var behind := [Symbol('|')] + ts[i + 1..] + us;
      assert ts + us == ts[..i] + behind;
      ExecComplete(s, ts[..i], behind, c.left);
      var rest := ParseExec(s).rest;
      PeekIs(rest, "|");
      ToksHead(rest);
      assert behind[1..] == ts[i + 1..] + us;
      PipeComplete(NextToken(rest).rest, ts[i + 1..], us, c.right);
    }
  }

  /** The loop over "&" gets to the command. */
  lemma {:induction false} BackComplete(s: string, ts: seq<Piece>, us: seq<Piece>, c: Cmd) returns (r: string)
    requires Toks(s) == ts + us && IsBack(ts, c) && Stops(us, ")&;")
    ensures ParsePipe(s).Ok? && Toks(r) == us && ParseBack(ParsePipe(s).cmd, ParsePipe(s).rest) == ParseBack(c, r)
    decreases |ts|, 3
  {
    hide Toks, ParsePipe, IsPipe, NextToken, Peek, Skip;
    var n := |ts|;
    if IsPipe(ts, c) {
      PipeComplete(s, ts, us, c);
      r := ParsePipe(s).rest;
    } else {
      var behind := [Symbol('&')] + us;
      assert ts + us == ts[..n - 1] + behind;
      var q := BackComplete(s, ts[..n - 1], behind, c.cmd);
      PeekIs(q, "&");
      ToksHead(q);
      assert behind[1..] == us;
      r := NextToken(q).rest;
    }
  }

  lemma {:induction false} LineComplete(s: string, ts: seq<Piece>, us: seq<Piece>, c: Cmd)
    requires Toks(s) == ts + us && IsLine(ts, c) && Stops(us, ")")
    ensures ParsesTo(ParseLine(s), c, us)
    decreases |ts|, 4
  {
    hide Toks, ParsePipe, ParseBack, IsBack, NextToken, Peek, Skip;
    if IsBack(ts, c) {
      var r := BackComplete(s, ts, us, c);
      BackStops(c, r);
      SkipToks(Skip(r));
      PeekIs(Skip(r), ";");
    } else {
      var i: nat :| ListAt(ts, c, i);
      var left, right := ts[..i], ts[i + 1..];
      var behind := [Symbol(';')] + right + us;
      assert ts + us == left + behind;
      var r := BackComplete(s, left, behind, c.left);
      BackStops(c.left, r);
      PeekIs(Skip(r), ";");
      ToksHead(Skip(r));
      assert behind[1..] == right + us;
      LineComplete(NextToken(Skip(r)).rest, right, us, c.right);
    }
  }

  lemma BackStops(c: Cmd, r: string)
    requires Stops(Toks(r), ");")
    ensures ParseBack(c, r) == Ok(c, Skip(r)) && Toks(Skip(r)) == Toks(r)
  {
    hide Toks, Peek, Skip;
    PeekIs(r, "&");
    SkipToks(r);
  }

  // ---------------------------------------------------------------- the parser is the grammar

  /** A line parses to a tree exactly if its tokens, however it is cut, stand for that tree. */
  lemma ParserIsGrammar(s: string, ps: seq<Piece>, c: Cmd)
    requires Cut(s, ps)
    ensures ParseCmd(s) == Ok(c, "") <==> IsLine(Tokens(ps), c)
  {
    hide Toks, ParseLine, IsLine, Skip;
    CutTokens(s, ps);
    ToksHead(s);
    if ParseCmd(s) == Ok(c, "") {
      var ts := LineSound(s);
      ToksHead(ParseLine(s).rest);
      assert ts + [] == ts;
    }
    if IsLine(Toks(s), c) {
      assert Toks(s) == Toks(s) + [];
      LineComplete(s, Toks(s), [], c);
      ToksHead(ParseLine(s).rest);
    }
  }

  /** It is a syntax error exactly if they stand for no tree, and they never stand for two. */
  lemma GrammarDecides(s: string, ps: seq<Piece>)
    requires Cut(s, ps)
    ensures ParseCmd(s) == Err <==> forall c: Cmd :: !IsLine(Tokens(ps), c)
    ensures forall c: Cmd, d: Cmd :: IsLine(Tokens(ps), c) && IsLine(Tokens(ps), d) ==> c == d
  {
    hide IsLine, ParseLine;
    forall c: Cmd ensures ParseCmd(s) == Ok(c, "") <==> IsLine(Tokens(ps), c) {
      ParserIsGrammar(s, ps, c);
    }
    if ParseCmd(s).Ok? {
      assert IsLine(Tokens(ps), ParseCmd(s).cmd);
    }
  }
}
