/** The parser of sh.c with its cursor: a line, a position in it that every routine advances, and
    loops over redirections, arguments and "&". Each routine does what its function in ShellParser
    says, so the round trip is about this code.
 */
module ShellCode {
  import opened ShellParser

  /** One turn of the loop of parseredirs. */
  lemma RedirTurn(s: string, list: seq<Redirection>)
    ensures !Peek(s, "<>") ==> WithRedirs(list, ParseRedirs(s)) == Redirs(list, Skip(s))
    ensures Peek(s, "<>") ==>
              var op := NextToken(s);
              var file := NextToken(op.rest);
              if file.kind != 'a' then ParseRedirs(s) == RedirErr
              else WithRedirs(list, ParseRedirs(s))
                   == WithRedirs(list + [Redirection(file.word, op.kind == '<')], ParseRedirs(file.rest))
  {
    hide Peek, NextToken, Skip;
    if !Peek(s, "<>") {
      assert list + [] == list;
    } else {
      var op := NextToken(s);
      var file := NextToken(op.rest);
      var x := [Redirection(file.word, op.kind == '<')];
      if file.kind == 'a' && ParseRedirs(file.rest).Redirs? {
        assert list + (x + ParseRedirs(file.rest).list) == list + x + ParseRedirs(file.rest).list;
      }
    }
  }

  class Parser {
    const line: string
    var pos: nat

    ghost predicate Valid()
      reads this
    {
      pos <= |line|
    }

    ghost function Rest(): string
      requires Valid()
      reads this
    {
      line[pos..]
    }

    constructor (s: string)
      ensures Valid() && Rest() == s && line == s
    {
      line, pos := s, 0;
    }

    method SkipSpaces()
      requires Valid()
      modifies this
      ensures Valid() && pos >= old(pos) && Rest() == Skip(old(Rest()))
    {
      while pos < |line| && IsSpace(line[pos])
        invariant Valid() && pos >= old(pos) && Skip(Rest()) == Skip(old(Rest()))
        decreases |line| - pos
      {
        assert Rest()[1..] == line[pos + 1..];
        pos := pos + 1;
      }
    }

    method SkipWord()
      requires Valid()
      modifies this
      ensures Valid() && pos == old(pos) + WordLength(old(Rest()))
    {
      while pos < |line| && !IsSpace(line[pos]) && !IsSymbol(line[pos])
        invariant Valid() && pos + WordLength(Rest()) == old(pos) + WordLength(old(Rest()))
        decreases |line| - pos
      {
        assert Rest()[1..] == line[pos + 1..];
        pos := pos + 1;
      }
    }

    /** gettoken: the token is line[q..eq]. */
    method GetToken() returns (kind: char, q: nat, eq: nat)
      requires Valid()
      modifies this
      ensures Valid() && pos >= old(pos) && q <= eq <= |line|
      ensures kind == NextToken(old(Rest())).kind && Rest() == NextToken(old(Rest())).rest
      ensures kind == 'a' ==> line[q..eq] == NextToken(old(Rest())).word
    {
      SkipSpaces();
      ghost var t := Rest();
      q := pos;
      if pos == |line| {
        kind := '0';
      } else if line[pos] == '>' {
        kind := '>';
        pos := pos + 1;
        assert Rest() == t[1..];
        if pos < |line| && line[pos] == '>' {
          kind := '+';
          pos := pos + 1;
          assert Rest() == t[2..];
        }
      } else if IsSymbol(line[pos]) {
        kind := line[pos];
        pos := pos + 1;
        assert Rest() == t[1..];
      } else {
        kind := 'a';
        SkipWord();
        assert Rest() == t[WordLength(t)..];
        assert line[q..pos] == t[..WordLength(t)];
      }
      eq := pos;
      SkipSpaces();
    }

    method PeekFor(toks: string) returns (found: bool)
      requires Valid()
      modifies this
      ensures Valid() && pos >= old(pos) && Rest() == Skip(old(Rest()))
      ensures found <==> Peek(old(Rest()), toks)
    {
      SkipSpaces();
      assert pos < |line| ==> Rest()[0] == line[pos];
      found := pos < |line| && line[pos] in toks;
    }

    /** parseredirs, which returns the redirections that the caller wraps around its command. */
    method ParseRedirections() returns (r: RedirParse)
      requires Valid()
      modifies this
      ensures Valid() && pos >= old(pos)
      ensures r.RedirErr? <==> ParseRedirs(old(Rest())).RedirErr?
      ensures r.Redirs? ==> r == ParseRedirs(old(Rest())) && Rest() == r.rest
    {
      hide ParseRedirs, NextToken, Peek, Skip;
      var list := [];
      ghost var s := Rest();
      WithNone(ParseRedirs(s));
      while true
        invariant Valid() && pos >= old(pos) && ParseRedirs(s) == WithRedirs(list, ParseRedirs(Rest()))
        decreases |line| - pos
      {
        ghost var s1 := Rest();
        RedirTurn(s1, list);
        var more := PeekFor("<>");
        if !more {
          return Redirs(list, line[pos..]);
        }
        SkipToken(s1);
        var op, _, _ := GetToken();
        var kind, q, eq := GetToken();
        if kind != 'a' {
          return RedirErr;
        }
        list := list + [Redirection(line[q..eq], op == '<')];
      }
    }

    method ParseExecCmd() returns (r: Parse)
      requires Valid()
      modifies this
      ensures Valid() && pos >= old(pos)
      ensures r.Err? <==> ParseExec(old(Rest())).Err?
      ensures r.Ok? ==> r == ParseExec(old(Rest())) && Rest() == r.rest
      decreases |line| - pos, 1
    {
      ghost var s := Rest();
      SkipExec(s);
      SkipToken(s);
      var block := PeekFor("(");
      if block {
        r := ParseBlockCmd();
        return;
      }
      var argv, list := [], [];
      while true
        invariant Valid() && pos >= old(pos)
        invariant ParseArgs(Rest(), argv, list) == ParseExec(s)
        decreases |line| - pos
      {
        ghost var s1 := Rest();
        var rd := ParseRedirections();
        if rd.RedirErr? {
          return Err;
        }
        list := list + rd.list;
        SkipToken(Rest());
        var stop := PeekFor("|)&;");
        if stop {
          return Ok(Wrap(Exec(argv), list), line[pos..]);
        }
        var kind, q, eq := GetToken();
        if kind == '0' {
          return Ok(Wrap(Exec(argv), list), line[pos..]);
        }
        if kind != 'a' {
          return Err;
        }
        if |argv| + 1 >= MAXARGS {
          return Err;
        }
        argv := argv + [line[q..eq]];
      }
    }

    method ParseBlockCmd() returns (r: Parse)
      requires Valid()
      modifies this
      ensures Valid() && pos >= old(pos)
      ensures r.Err? <==> ParseBlock(old(Rest())).Err?
      ensures r.Ok? ==> r == ParseBlock(old(Rest())) && Rest() == r.rest
      decreases |line| - pos, 0
    {
      SkipToken(Rest());
      var open := PeekFor("(");
      if !open {
        return Err;
      }
      var _, _, _ := GetToken();
      r := ParseLineCmd();
      if r.Err? {
        return;
      }
      SkipToken(Rest());
      var close := PeekFor(")");
      if !close {
        return Err;
      }
      var _, _, _ := GetToken();
      var rd := ParseRedirections();
      if rd.RedirErr? {
        return Err;
      }
      r := Ok(Wrap(r.cmd, rd.list), rd.rest);
    }

    method ParsePipeCmd() returns (r: Parse)
      requires Valid()
      modifies this
      ensures Valid() && pos >= old(pos)
      ensures r.Err? <==> ParsePipe(old(Rest())).Err?
      ensures r.Ok? ==> r == ParsePipe(old(Rest())) && Rest() == r.rest
      decreases |line| - pos, 2
    {
      r := ParseExecCmd();
      if r.Err? {
        return;
      }
      SkipToken(Rest());
      var more := PeekFor("|");
      if more {
        var _, _, _ := GetToken();
        var right := ParsePipeCmd();
        r := if right.Err? then Err else Ok(Pipe(r.cmd, right.cmd), right.rest);
      } else {
        r := Ok(r.cmd, line[pos..]);
      }
    }

    method ParseLineCmd() returns (r: Parse)
      requires Valid()
      modifies this
      ensures Valid() && pos >= old(pos)
      ensures r.Err? <==> ParseLine(old(Rest())).Err?
      ensures r.Ok? ==> r == ParseLine(old(Rest())) && Rest() == r.rest
      decreases |line| - pos, 3
    {
      r := ParsePipeCmd();
      if r.Err? {
        return;
      }
      var cmd := r.cmd;
      ghost var s := Rest();
      while true
        invariant Valid() && pos >= old(pos) && ParseBack(cmd, Rest()) == ParseBack(r.cmd, s)
        decreases |line| - pos
      {
        SkipToken(Rest());
        var back := PeekFor("&");
        if !back {
          break;
        }
        var _, _, _ := GetToken();
        cmd := Back(cmd);
      }
      assert Ok(cmd, Rest()) == ParseBack(r.cmd, s);
      SkipToken(Rest());
      var more := PeekFor(";");
      if more {
        var _, _, _ := GetToken();
        var right := ParseLineCmd();
        r := if right.Err? then Err else Ok(List(cmd, right.cmd), right.rest);
      } else {
        r := Ok(cmd, line[pos..]);
      }
    }

    /** parsecmd. */
    method ParseWhole() returns (r: Parse)
      requires Valid() && pos == 0
      modifies this
      ensures r == ParseCmd(line)
    {
      assert Rest() == line;
      r := ParseLineCmd();
      if r.Ok? {
        var _ := PeekFor("");
        r := if pos != |line| then Err else Ok(r.cmd, "");
      }
    }
  }
}
