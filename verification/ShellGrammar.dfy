/** The grammar of command lines, without the parser: how a line is cut into blanks, words and symbols, and which
    trees a list of tokens stands for. The parser of sh.c accepts exactly the lines that stand for a tree, and
    returns that tree.
 */
module ShellGrammar {
  import opened ShellParser

  // ---------------------------------------------------------------- cutting a line

  /** A piece of a line. */
  datatype Piece = Blank(c: char) | Word(w: string) | Symbol(c: char) | Append

  function Text(x: Piece): string {
    match x
    case Blank(c) => [c]
    case Word(w) => w
    case Symbol(c) => [c]
    case Append => ">>"
  }

  /** Blanks and symbols are those of sh.c, and words are made of the other characters. */
  predicate PieceOk(x: Piece) {
    match x
    case Blank(c) => c in " \t\r\n\U{0B}"
    case Word(w) => w != "" && forall i | 0 <= i < |w| :: w[i] !in " \t\r\n\U{0B}" && w[i] !in "<|>&;()"
    case Symbol(c) => c in "<|>&;()"
    case Append => true
  }

  /** Words and ">>" are as long as they can be. */
  predicate Apart(x: Piece, y: Piece) {
    !(x.Word? && y.Word?) && !(x == Symbol('>') && (y == Symbol('>') || y == Append))
  }

  function Joined(ps: seq<Piece>): string {
    if ps == [] then "" else Text(ps[0]) + Joined(ps[1..])
  }

  /** `ps` is how the line is cut. */
  ghost predicate Cut(s: string, ps: seq<Piece>) {
    && Joined(ps) == s && (forall i | 0 <= i < |ps| :: PieceOk(ps[i]))
    && forall i | 0 <= i < |ps| - 1 :: Apart(ps[i], ps[i + 1])
  }

  /** The pieces that are not blanks. */
  function Tokens(ps: seq<Piece>): seq<Piece> {
    if ps == [] then [] else (if ps[0].Blank? then [] else [ps[0]]) + Tokens(ps[1..])
  }

  // ---------------------------------------------------------------- trees

  predicate IsRedirOp(x: Piece) {
    x == Symbol('<') || x == Symbol('>') || x == Append
  }

  /** Redirections around a command, the last one outermost. */
  function Around(c: Cmd, list: seq<Redirection>): Cmd {
    if list == [] then c else Redir(Around(c, list[..|list| - 1]), list[|list| - 1].file, list[|list| - 1].input)
  }

  /** Tokens that are words and redirections in any order, the words fewer than MAXARGS. */
  predicate IsSimple(ts: seq<Piece>, argv: seq<string>, list: seq<Redirection>)
    decreases |ts|
  {
    var n := |ts|;
    if n == 0 then argv == [] && list == []
    else if !ts[n - 1].Word? then false
    else if n > 1 && IsRedirOp(ts[n - 2]) then
      && list != [] && list[|list| - 1] == Redirection(ts[n - 1].w, ts[n - 2] == Symbol('<'))
      && IsSimple(ts[..n - 2], argv, list[..|list| - 1])
    else
      && argv != [] && argv[|argv| - 1] == ts[n - 1].w && |argv| < MAXARGS
      && IsSimple(ts[..n - 1], argv[..|argv| - 1], list)
  }

  /** A line in parentheses, with redirections behind it. */
  ghost predicate IsBlock(ts: seq<Piece>, c: Cmd)
    decreases |ts|, 0
  {
    var n := |ts|;
    || (n > 1 && ts[0] == Symbol('(') && ts[n - 1] == Symbol(')') && IsLine(ts[1..n - 1], c))
    || (&& n > 2 && IsRedirOp(ts[n - 2]) && ts[n - 1].Word?
        && c.Redir? && c.file == ts[n - 1].w && c.input == (ts[n - 2] == Symbol('<')) && IsBlock(ts[..n - 2], c.cmd))
  }

  ghost predicate IsExec(ts: seq<Piece>, c: Cmd)
    decreases |ts|, 1
  {
    IsBlock(ts, c) || exists argv, list :: IsSimple(ts, argv, list) && c == Around(Exec(argv), list)
  }

  ghost predicate PipeAt(ts: seq<Piece>, c: Cmd, i: nat)
    decreases |ts|, 2
  {
    c.Pipe? && i < |ts| && ts[i] == Symbol('|') && IsExec(ts[..i], c.left) && IsPipe(ts[i + 1..], c.right)
  }

  ghost predicate IsPipe(ts: seq<Piece>, c: Cmd)
    decreases |ts|, 3
  {
    IsExec(ts, c) || exists i: nat :: PipeAt(ts, c, i)
  }

  ghost predicate IsBack(ts: seq<Piece>, c: Cmd)
    decreases |ts|, 4
  {
    var n := |ts|;
    IsPipe(ts, c) || (c.Back? && n > 0 && ts[n - 1] == Symbol('&') && IsBack(ts[..n - 1], c.cmd))
  }

  ghost predicate ListAt(ts: seq<Piece>, c: Cmd, i: nat)
    decreases |ts|, 5
  {
    c.List? && i < |ts| && ts[i] == Symbol(';') && IsBack(ts[..i], c.left) && IsLine(ts[i + 1..], c.right)
  }

  /** The tokens stand for the tree: commands with "|" between them, in the background with "&", one after the
      other with ";". */
  ghost predicate IsLine(ts: seq<Piece>, c: Cmd)
    decreases |ts|, 6
  {
    IsBack(ts, c) || exists i: nat :: ListAt(ts, c, i)
  }

  // ---------------------------------------------------------------- tokens as the parser reads them

  function PieceOf(t: Token): Piece {
    if t.kind == 'a' then Word(t.word) else if t.kind == '+' then Append else Symbol(t.kind)
  }

  function Toks(s: string): seq<Piece>
    decreases |s|
  {
    var t := NextToken(s);
    if t.kind == '0' then [] else [PieceOf(t)] + Toks(t.rest)
  }

  lemma SkipToks(s: string)
    ensures Toks(Skip(s)) == Toks(s)
  {
    SkipToken(s);
  }

  /** The parser's own notions of blanks and symbols are those of the grammar. */
  lemma SameCharacters(c: char)
    ensures IsSpace(c) <==> c in " \t\r\n\U{0B}"
    ensures IsSymbol(c) <==> c in "<|>&;()"
  {
  }

  /** A piece starts with a character of its kind. */
  lemma StartOf(x: Piece)
    requires PieceOk(x)
    ensures Text(x) != ""
    ensures x.Blank? <==> IsSpace(Text(x)[0])
    ensures x.Symbol? || x.Append? <==> IsSymbol(Text(x)[0])
    ensures x == Symbol('>') || x == Append <==> Text(x)[0] == '>'
  {
    SameCharacters(Text(x)[0]);
  }

  lemma CutTail(s: string, ps: seq<Piece>)
    requires Cut(s, ps) && ps != []
    ensures Text(ps[0]) <= s && Cut(s[|Text(ps[0])|..], ps[1..]) && PieceOk(ps[0])
  {
  }

  /** What follows the first piece starts with a piece that is apart from it. */
  lemma CutNext(s: string, ps: seq<Piece>)
    requires Cut(s, ps) && ps != []
    ensures var t := s[|Text(ps[0])|..];
            && (ps[0].Word? && t != "" ==> IsSpace(t[0]) || IsSymbol(t[0]))
            && (ps[0] == Symbol('>') && t != "" ==> t[0] != '>')
  {
    CutTail(s, ps);
    var t := s[|Text(ps[0])|..];
    if |ps| > 1 {
      CutTail(t, ps[1..]);
      StartOf(ps[1]);
      assert Apart(ps[0], ps[1]);
      assert t[0] == Text(ps[1])[0];
    }
  }

  lemma {:induction false} WordEnds(w: string, t: string)
    requires forall i | 0 <= i < |w| :: !IsSpace(w[i]) && !IsSymbol(w[i])
    requires t != "" ==> IsSpace(t[0]) || IsSymbol(t[0])
    ensures WordLength(w + t) == |w|
  {
    if w != "" {
      assert (w + t)[1..] == w[1..] + t;
      WordEnds(w[1..], t);
    } else {
      assert w + t == t;
    }
  }

  /** The first token of a line that is cut. */
  lemma FirstToken(s: string, ps: seq<Piece>)
    requires Cut(s, ps) && ps != [] && !ps[0].Blank?
    ensures var t := NextToken(s);
            t.kind != '0' && PieceOf(t) == ps[0] && t.rest == Skip(s[|Text(ps[0])|..])
  {
    CutTail(s, ps);
    CutNext(s, ps);
    StartOf(ps[0]);
    var x, t := ps[0], s[|Text(ps[0])|..];
    assert s == Text(x) + t;
    assert Skip(s) == s;
    if x.Word? {
      forall i | 0 <= i < |x.w| ensures !IsSpace(x.w[i]) && !IsSymbol(x.w[i]) {
        SameCharacters(x.w[i]);
      }
      WordEnds(x.w, t);
      assert s[..|x.w|] == x.w;
    }
  }

  /** However a line is cut, its tokens are those that the parser reads. */
  lemma {:induction false} CutTokens(s: string, ps: seq<Piece>)
    requires Cut(s, ps)
    ensures Tokens(ps) == Toks(s)
    decreases |ps|
  {
    if ps != [] {
      CutTail(s, ps);
      var t := s[|Text(ps[0])|..];
      CutTokens(t, ps[1..]);
      if ps[0].Blank? {
        StartOf(ps[0]);
        assert Skip(s) == Skip(t);
        SkipToks(s);
        SkipToks(t);
      } else {
        FirstToken(s, ps);
        SkipToks(t);
      }
    }
  }

  /** Every line can be cut. */
  lemma {:induction false} CutExists(s: string) returns (ps: seq<Piece>)
    ensures Cut(s, ps)
    decreases |s|
  {
    if s == "" {
      ps := [];
    } else {
      var x := FirstPiece(s);
      var n := |Text(x)|;
      ps := CutExists(s[n..]);
      CutMore(s, x, ps);
      ps := [x] + ps;
    }
  }

  /** The longest piece at the start of a line. */
  lemma FirstPiece(s: string) returns (x: Piece)
    requires s != ""
    ensures PieceOk(x) && Text(x) != "" && Text(x) <= s
    ensures var t := s[|Text(x)|..];
            && (x.Word? && t != "" ==> IsSpace(t[0]) || IsSymbol(t[0]))
            && (x == Symbol('>') && t != "" ==> t[0] != '>')
  {
    SameCharacters(s[0]);
    if IsSpace(s[0]) {
      x := Blank(s[0]);
    } else if |s| > 1 && s[0] == '>' && s[1] == '>' {
      x := Append;
    } else if IsSymbol(s[0]) {
      x := Symbol(s[0]);
    } else {
      var n := WordLength(s);
      WordChars(s);
      x := Word(s[..n]);
    }
  }

  lemma {:induction false} WordChars(s: string)
    ensures forall i | 0 <= i < WordLength(s) :: s[i] !in " \t\r\n\U{0B}" && s[i] !in "<|>&;()"
    ensures WordLength(s) < |s| ==> IsSpace(s[WordLength(s)]) || IsSymbol(s[WordLength(s)])
  {
    if s != "" {
      SameCharacters(s[0]);
      WordChars(s[1..]);
      assert forall i | 1 <= i < |s| :: s[i] == s[1..][i - 1];
    }
  }

  lemma CutMore(s: string, x: Piece, ps: seq<Piece>)
    requires PieceOk(x) && Text(x) <= s && Cut(s[|Text(x)|..], ps)
    requires var t := s[|Text(x)|..];
             && (x.Word? && t != "" ==> IsSpace(t[0]) || IsSymbol(t[0]))
             && (x == Symbol('>') && t != "" ==> t[0] != '>')
    ensures Cut(s, [x] + ps)
  {
    var all := [x] + ps;
    assert all[1..] == ps;
    if ps != [] {
      CutTail(s[|Text(x)|..], ps);
      StartOf(ps[0]);
      assert s[|Text(x)|..][0] == Text(ps[0])[0];
    }
    forall i | 0 <= i < |all| - 1 ensures Apart(all[i], all[i + 1]) {
      if i > 0 {
        assert Apart(ps[i - 1], ps[i]);
      }
    }
  }
}
