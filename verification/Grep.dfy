/** The regular expression matcher of grep.c, proved against the language that a pattern denotes.
    Strings are the characters before the terminating NUL.
 */
module Grep {

  /** One character, or any number of them; the character '.' stands for all characters. */
  datatype Item = One(c: char) | Star(c: char)

  // ---------------------------------------------------------------- what a pattern means

  predicate Fits(c: char, x: char) {
    c == '.' || c == x
  }

  /** The items of a pattern without a leading '^'. */
  function Items(re: string): seq<Item> {
    if re == "" then []
    else if |re| > 1 && re[1] == '*' then [Star(re[0])] + Items(re[2..])
    else [One(re[0])] + Items(re[1..])
  }

  /** A '$' that ends the pattern, and is not starred, stands for the end of the text. */
  predicate Anchored(re: string) {
    var items := Items(re);
    items != [] && items[|items| - 1] == One('$')
  }

  function Body(re: string): seq<Item> {
    var items := Items(re);
    if Anchored(re) then items[..|items| - 1] else items
  }

  ghost predicate InItem(item: Item, w: string) {
    match item
    case One(c) => |w| == 1 && Fits(c, w[0])
    case Star(c) => forall i | 0 <= i < |w| :: Fits(c, w[i])
  }

  ghost function Concat(ws: seq<string>): string {
    if ws == [] then "" else ws[0] + Concat(ws[1..])
  }

  ghost predicate Splits(items: seq<Item>, w: string, ws: seq<string>) {
    |ws| == |items| && Concat(ws) == w && forall i | 0 <= i < |ws| :: InItem(items[i], ws[i])
  }

  /** A string is in the language of a list of items if it is a concatenation of strings of the items. */
  ghost predicate InLanguage(items: seq<Item>, w: string) {
    exists ws :: Splits(items, w, ws)
  }

  predicate FrontAnchored(re: string) {
    re != "" && re[0] == '^'
  }

  function WithoutFront(re: string): string {
    if FrontAnchored(re) then re[1..] else re
  }

  /** The part of the text from `i` to `j` is in the language of the pattern. It starts the text if the
      pattern starts with '^', and ends it if the pattern ends with '$'. */
  ghost predicate FoundAt(re: string, text: string, i: nat, j: nat) {
    && i <= j <= |text|
    && (FrontAnchored(re) ==> i == 0)
    && (Anchored(WithoutFront(re)) ==> j == |text|)
    && InLanguage(Body(WithoutFront(re)), text[i..j])
  }

  ghost predicate Matches(re: string, text: string) {
    exists i: nat, j: nat :: FoundAt(re, text, i, j)
  }

  // ---------------------------------------------------------------- unfolding the language

  lemma LanguageNil(w: string)
    ensures InLanguage([], w) <==> w == ""
  {
    if w == "" {
      assert Splits([], w, []);
    }
  }

  lemma LanguageOne(c: char, items: seq<Item>, w: string)
    ensures InLanguage([One(c)] + items, w) <==> w != "" && Fits(c, w[0]) && InLanguage(items, w[1..])
  {
    if ws :| Splits([One(c)] + items, w, ws) {
      assert InItem(([One(c)] + items)[0], ws[0]);
      assert forall i | 0 <= i < |items| :: items[i] == ([One(c)] + items)[i + 1];
      assert w == ws[0] + Concat(ws[1..]);
      assert w[1..] == Concat(ws[1..]);
      assert Splits(items, w[1..], ws[1..]);
    }
    if w != "" && Fits(c, w[0]) {
      if ws :| Splits(items, w[1..], ws) {
        var ws' := [w[..1]] + ws;
        assert ws'[1..] == ws && w == w[..1] + w[1..];
        assert Splits([One(c)] + items, w, ws');
      }
    }
  }

  ghost predicate StarPrefix(c: char, items: seq<Item>, w: string, k: nat) {
    k <= |w| && (forall i | 0 <= i < k :: Fits(c, w[i])) && InLanguage(items, w[k..])
  }

  lemma LanguageStar(c: char, items: seq<Item>, w: string)
    ensures InLanguage([Star(c)] + items, w) <==> exists k: nat :: StarPrefix(c, items, w, k)
  {
    if ws :| Splits([Star(c)] + items, w, ws) {
      var k := |ws[0]|;
      assert InItem(([Star(c)] + items)[0], ws[0]);
      assert forall i | 0 <= i < |items| :: items[i] == ([Star(c)] + items)[i + 1];
      assert w == ws[0] + Concat(ws[1..]);
      assert w[k..] == Concat(ws[1..]);
      assert Splits(items, w[k..], ws[1..]);
      assert StarPrefix(c, items, w, k);
    }
    if k: nat :| StarPrefix(c, items, w, k) {
      var ws :| Splits(items, w[k..], ws);
      var ws' := [w[..k]] + ws;
      assert ws'[1..] == ws && w == w[..k] + w[k..];
      assert Splits([Star(c)] + items, w, ws');
    }
  }

  // ---------------------------------------------------------------- the matcher

  ghost predicate HereTo(re: string, text: string, j: nat) {
    j <= |text| && (Anchored(re) ==> j == |text|) && InLanguage(Body(re), text[..j])
  }

  /** The text has a beginning in the language of the pattern. */
  ghost predicate Here(re: string, text: string) {
    exists j: nat :: HereTo(re, text, j)
  }

  ghost predicate StarTo(c: char, re: string, text: string, k: nat) {
    k <= |text| && (forall i | 0 <= i < k :: Fits(c, text[i])) && Here(re, text[k..])
  }

  lemma HereEmpty(text: string)
    ensures Here("", text)
  {
    LanguageNil(text[..0]);
    assert HereTo("", text, 0);
  }

  lemma HereEnd(text: string)
    ensures Here("$", text) <==> text == ""
  {
    assert Items("$") == [One('$')];
    assert Body("$") == [];
    LanguageNil(text);
    assert text[..|text|] == text;
    if text == "" {
      assert HereTo("$", text, 0);
    }
  }

  lemma OneItem(re: string)
    requires re != "" && !(|re| > 1 && re[1] == '*') && re != "$"
    ensures Anchored(re) == Anchored(re[1..]) && Body(re) == [One(re[0])] + Body(re[1..])
  {
    if |re| == 1 {
      assert Items(re) == [One(re[0])] + [];
    }
  }

  lemma HereOne(re: string, text: string)
    requires re != "" && !(|re| > 1 && re[1] == '*') && re != "$"
    ensures Here(re, text) <==> text != "" && Fits(re[0], text[0]) && Here(re[1..], text[1..])
  {
    OneItem(re);
    if j: nat :| HereTo(re, text, j) {
      LanguageOne(re[0], Body(re[1..]), text[..j]);
      assert text[..j][1..] == text[1..][..j - 1];
      assert HereTo(re[1..], text[1..], j - 1);
    }
    if text != "" && Fits(re[0], text[0]) {
      if j: nat :| HereTo(re[1..], text[1..], j) {
        assert text[..j + 1][1..] == text[1..][..j];
        LanguageOne(re[0], Body(re[1..]), text[..j + 1]);
        assert HereTo(re, text, j + 1);
      }
    }
  }

  lemma StarItem(re: string)
    requires |re| > 1 && re[1] == '*'
    ensures Anchored(re) == Anchored(re[2..]) && Body(re) == [Star(re[0])] + Body(re[2..])
  {
  }

  lemma HereStar(re: string, text: string)
    requires |re| > 1 && re[1] == '*'
    ensures Here(re, text) <==> exists k: nat :: StarTo(re[0], re[2..], text, k)
  {
    StarItem(re);
    var c, rest := re[0], re[2..];
    if j: nat :| HereTo(re, text, j) {
      LanguageStar(c, Body(rest), text[..j]);
      var k: nat :| StarPrefix(c, Body(rest), text[..j], k);
      assert text[..j][k..] == text[k..][..j - k];
      assert HereTo(rest, text[k..], j - k);
      assert forall i | 0 <= i < k :: text[..j][i] == text[i];
      assert StarTo(c, rest, text, k);
    }
    if k: nat :| StarTo(c, rest, text, k) {
      var j: nat :| HereTo(rest, text[k..], j);
      assert text[..k + j][k..] == text[k..][..j];
      assert StarPrefix(c, Body(rest), text[..k + j], k);
      LanguageStar(c, Body(rest), text[..k + j]);
      assert HereTo(re, text, k + j);
    }
  }

  /** matchhere. */
  method MatchHere(re: string, text: string) returns (r: bool)
    ensures r <==> Here(re, text)
    decreases |re|, 0
  {
    if re == "" {
      HereEmpty(text);
      return true;
    }
    if |re| > 1 && re[1] == '*' {
      HereStar(re, text);
      r := MatchStar(re[0], re[2..], text);
      return;
    }
    if re[0] == '$' && |re| == 1 {
      assert re == "$";
      HereEnd(text);
      return text == "";
    }
    HereOne(re, text);
    if text != "" && (re[0] == '.' || re[0] == text[0]) {
      r := MatchHere(re[1..], text[1..]);
      return;
    }
    return false;
  }

  /** matchstar. */
  method MatchStar(c: char, re: string, text: string) returns (r: bool)
    ensures r <==> exists k: nat :: StarTo(c, re, text, k)
    decreases |re|, 1
  {
    var k := 0;
    while true
      invariant 0 <= k <= |text|
      invariant forall i | 0 <= i < k :: Fits(c, text[i])
      invariant forall i | 0 <= i < k :: !StarTo(c, re, text, i)
      decreases |text| - k
    {
      var here := MatchHere(re, text[k..]);
      if here {
        assert StarTo(c, re, text, k);
        return true;
      }
      if k < |text| && (text[k] == c || c == '.') {
        k := k + 1;
      } else {
        return false;
      }
    }
  }

  /** match: tells for every pattern and every text whether the pattern occurs in the text. */
  method Match(re: string, text: string) returns (r: bool)
    ensures r <==> Matches(re, text)
  {
    if re != "" && re[0] == '^' {
      r := MatchHere(re[1..], text);
      FrontMatches(re, text);
      return;
    }
    var i := 0;
    while true
      invariant 0 <= i <= |text|
      invariant forall k | 0 <= k < i :: !Here(re, text[k..])
      decreases |text| - i
    {
      var here := MatchHere(re, text[i..]);
      if here {
        HereMatches(re, text, i);
        return true;
      }
      if i == |text| {
        MatchesHere(re, text);
        return false;
      }
      i := i + 1;
    }
  }

  lemma FrontMatches(re: string, text: string)
    requires re != "" && re[0] == '^'
    ensures Matches(re, text) <==> Here(re[1..], text)
  {
    var rest := re[1..];
    if j: nat :| HereTo(rest, text, j) {
      assert text[0..j] == text[..j];
      assert FoundAt(re, text, 0, j);
    }
    if i: nat, j: nat :| FoundAt(re, text, i, j) {
      assert text[i..j] == text[..j];
      assert HereTo(rest, text, j);
    }
  }

  lemma HereMatches(re: string, text: string, i: nat)
    requires (re == "" || re[0] != '^') && i <= |text| && Here(re, text[i..])
    ensures Matches(re, text)
  {
    var j: nat :| HereTo(re, text[i..], j);
    assert text[i..][..j] == text[i..i + j];
    assert FoundAt(re, text, i, i + j);
  }

  lemma MatchesHere(re: string, text: string)
    requires (re == "" || re[0] != '^') && forall k | 0 <= k <= |text| :: !Here(re, text[k..])
    ensures !Matches(re, text)
  {
    if i: nat, j: nat :| FoundAt(re, text, i, j) {
      assert text[i..][..j - i] == text[i..j];
      assert HereTo(re, text[i..], j - i);
    }
  }
}
