/**
 user/grep.c: the matcher for patterns of characters, '.', starred characters, a leading
 '^' and a final '$'.  The language of a pattern is given by how a text may be cut into
 pieces, one for each item; the matcher is proved to decide it.
 */
module Grep {

  /** A character that must be there once, or any number of times. */
  datatype Item = One(c: char) | Star(c: char)

  /** The items of a pattern without its '^'; a final '$' that is not starred is no item. */
  function Items(re: string): seq<Item> {
    if re == [] then []
    else if |re| > 1 && re[1] == '*' then [Star(re[0])] + Items(re[2..])
    else if re == ['$'] then []
    else [One(re[0])] + Items(re[1..])
  }

  /** The pattern ends in a '$' that stands for the end of the text. */
  predicate Ends(re: string) {
    if re == [] then false
    else if |re| > 1 && re[1] == '*' then Ends(re[2..])
    else re == ['$'] || Ends(re[1..])
  }

  predicate Fits(c: char, t: char) {
    c == '.' || c == t
  }

  predicate PieceOk(it: Item, p: string) {
    (it.One? ==> |p| == 1) && forall k :: 0 <= k < |p| ==> Fits(it.c, p[k])
  }

  function Concat(pieces: seq<string>): string {
    if pieces == [] then "" else pieces[0] + Concat(pieces[1..])
  }

  /** The text is cut into one piece for each item. */
  ghost predicate Cut(items: seq<Item>, pieces: seq<string>, w: string) {
    && |pieces| == |items| && Concat(pieces) == w
    && forall k :: 0 <= k < |items| ==> PieceOk(items[k], pieces[k])
  }

  ghost predicate Lang(items: seq<Item>, w: string) {
    exists pieces: seq<string> :: Cut(items, pieces, w)
  }

  /** The first j characters of the text match. */
  ghost predicate HereAt(re: string, text: string, j: nat) {
    j <= |text| && (Ends(re) ==> j == |text|) && Lang(Items(re), text[..j])
  }

  /** Some beginning of the text matches. */
  ghost predicate Here(re: string, text: string) {
    exists j: nat :: HereAt(re, text, j)
  }

  ghost predicate MatchAt(re: string, text: string, i: nat) {
    i <= |text| && Here(re, text[i..])
  }

  /** Some part of the text matches; with '^' one that starts at the beginning. */
  ghost predicate Matches(re: string, text: string) {
    if re != [] && re[0] == '^' then Here(re[1..], text) else exists i: nat :: MatchAt(re, text, i)
  }

  // ------------------------------------------------- one item at a time

  /** A word of it and items is a piece for it and a word of items. */
  lemma LangCons(it: Item, items: seq<Item>, p: string, w: string)
    requires PieceOk(it, p) && Lang(items, w)
    ensures Lang([it] + items, p + w)
  {
    var pieces :| Cut(items, pieces, w);
    var all := [p] + pieces;
    assert all[1..] == pieces;
    forall k | 0 <= k < |all| ensures PieceOk(([it] + items)[k], all[k]) {
      if k > 0 { assert PieceOk(items[k - 1], pieces[k - 1]); }
    }
    assert Cut([it] + items, all, p + w);
  }

  lemma LangSplit(it: Item, items: seq<Item>, w: string) returns (n: nat)
    requires Lang([it] + items, w)
    ensures n <= |w| && PieceOk(it, w[..n]) && Lang(items, w[n..])
  {
    var all := [it] + items;
    var pieces :| Cut(all, pieces, w);
    n := |pieces[0]|;
    assert PieceOk(all[0], pieces[0]);
    assert w[..n] == pieces[0] && w[n..] == Concat(pieces[1..]);
    forall k | 0 <= k < |items| ensures PieceOk(items[k], pieces[1..][k]) { assert PieceOk(all[k + 1], pieces[k + 1]); }
    assert Cut(items, pieces[1..], w[n..]);
  }

  lemma LangEmpty(w: string)
    ensures Lang([], w) <==> w == ""
  {
    assert Cut([], [], "");
  }

  lemma HereEmpty(text: string)
    ensures Here([], text)
  {
    LangEmpty(text[..0]);
    assert HereAt([], text, 0);
  }

  lemma HereEnd(text: string)
    ensures Here(['$'], text) <==> text == ""
  {
    LangEmpty(text[..|text|]);
    assert text == "" ==> HereAt(['$'], text, 0);
  }

  /** A starred character takes the k characters that fit and the rest matches behind. */
  ghost predicate StarAt(c: char, re: string, text: string, k: nat) {
    k <= |text| && PieceOk(Star(c), text[..k]) && Here(re, text[k..])
  }

  lemma HereStar(re: string, text: string)
    requires |re| > 1 && re[1] == '*'
    ensures Here(re, text) <==> exists k: nat :: StarAt(re[0], re[2..], text, k)
  {
    var c, rest := re[0], re[2..];
    if Here(re, text) {
      var j: nat :| HereAt(re, text, j);
      var k := LangSplit(Star(c), Items(rest), text[..j]);
      assert text[..j][..k] == text[..k] && text[..j][k..] == text[k..][..j - k];
      assert HereAt(rest, text[k..], j - k);
      assert StarAt(c, rest, text, k);
    }
    if k: nat :| StarAt(c, rest, text, k) {
      var j: nat :| HereAt(rest, text[k..], j);
      assert text[..k] + text[k..][..j] == text[..k + j];
      LangCons(Star(c), Items(rest), text[..k], text[k..][..j]);
      assert HereAt(re, text, k + j);
    }
  }

  lemma HereOne(re: string, text: string)
    requires re != [] && !(|re| > 1 && re[1] == '*') && re != ['$']
    ensures Here(re, text) <==> text != "" && Fits(re[0], text[0]) && Here(re[1..], text[1..])
  {
    if j: nat :| HereAt(re, text, j) { OneTaken(re, text, j); }
    if text != "" && Fits(re[0], text[0]) {
      if j: nat :| HereAt(re[1..], text[1..], j) { OnePut(re, text, j); }
    }
  }

  lemma OneTaken(re: string, text: string, j: nat)
    requires re != [] && !(|re| > 1 && re[1] == '*') && re != ['$'] && HereAt(re, text, j)
    ensures text != "" && Fits(re[0], text[0]) && Here(re[1..], text[1..])
  {
    var c, rest := re[0], re[1..];
    var n := LangSplit(One(c), Items(rest), text[..j]);
    assert text[..j][1..] == text[1..][..j - 1];
    assert Fits(c, text[..j][..n][0]);
    assert HereAt(rest, text[1..], j - 1);
  }

  lemma OnePut(re: string, text: string, j: nat)
    requires re != [] && !(|re| > 1 && re[1] == '*') && re != ['$']
    requires text != "" && Fits(re[0], text[0]) && HereAt(re[1..], text[1..], j)
    ensures Here(re, text)
  {
    var c, rest := re[0], re[1..];
    assert [text[0]] + text[1..][..j] == text[..j + 1];
    LangCons(One(c), Items(rest), [text[0]], text[1..][..j]);
    assert HereAt(re, text, j + 1);
  }

  // ------------------------------------------------- what patterns stand for

  /** A pattern without special characters. */
  predicate Plain(re: string) {
    forall k :: 0 <= k < |re| ==> re[k] != '.' && re[k] != '*' && re[k] != '^' && re[k] != '$'
  }

  lemma {:induction false} PlainHere(re: string, text: string)
    requires Plain(re)
    ensures Here(re, text) <==> re <= text
  {
    if re == [] {
      HereEmpty(text);
    } else {
      HereOne(re, text);
      if text != "" {
        PlainHere(re[1..], text[1..]);
        assert re <= text <==> re[0] == text[0] && re[1..] <= text[1..];
      }
    }
  }

  ghost predicate OccursAt(re: string, text: string, i: nat) {
    i <= |text| && re <= text[i..]
  }

  /** A pattern without special characters is found exactly where it occurs. */
  lemma PlainSearch(re: string, text: string)
    requires Plain(re)
    ensures Matches(re, text) <==> exists i: nat :: OccursAt(re, text, i)
  {
    forall i: nat ensures MatchAt(re, text, i) <==> OccursAt(re, text, i) {
      if i <= |text| { PlainHere(re, text[i..]); }
    }
    if i: nat :| MatchAt(re, text, i) { assert OccursAt(re, text, i); }
    if i: nat :| OccursAt(re, text, i) { assert MatchAt(re, text, i); }
  }

  /** The pattern ^c*$ matches exactly the texts of nothing but c. */
  lemma OnlyStar(c: char, text: string)
    requires c != '.' && c != '*'
    ensures Matches(['^', c, '*', '$'], text) <==> forall k :: 0 <= k < |text| ==> text[k] == c
  {
    var re := [c, '*', '$'];
    assert ['^', c, '*', '$'][1..] == re && re[2..] == ['$'];
    HereStar(re, text);
    forall k: nat ensures StarAt(c, ['$'], text, k) <==> k == |text| && forall j :: 0 <= j < |text| ==> text[j] == c {
      if k <= |text| {
        HereEnd(text[k..]);
        assert k == |text| ==> text[..k] == text;
      }
    }
    if forall k :: 0 <= k < |text| ==> text[k] == c { assert StarAt(c, ['$'], text, |text|); }
    if k: nat :| StarAt(c, ['$'], text, k) { assert forall j :: 0 <= j < |text| ==> text[j] == c; }
  }

  /** The pattern . matches exactly the texts that are not empty. */
  lemma AnyChar(text: string)
    ensures Matches(".", text) <==> text != ""
  {
    forall i: nat | i <= |text| ensures MatchAt(".", text, i) <==> i < |text| {
      HereOne(".", text[i..]);
      assert "."[1..] == [];
      if i < |text| { HereEmpty(text[i..][1..]); }
    }
    if text != "" { assert MatchAt(".", text, 0); }
  }

  // ------------------------------------------------- the matcher

  method MatchHere(re: string, text: string) returns (b: bool)
    ensures b <==> Here(re, text)
    decreases |re|, 0
  {
    if re == [] {
      HereEmpty(text);
      return true;
    }
    if |re| > 1 && re[1] == '*' {
      HereStar(re, text);
      b := MatchStar(re[0], re[2..], text);
      return;
    }
    if re == ['$'] {
      HereEnd(text);
      return text == "";
    }
    HereOne(re, text);
    if text != "" && (re[0] == '.' || re[0] == text[0]) {
      b := MatchHere(re[1..], text[1..]);
      return;
    }
    return false;
  }

  method MatchStar(c: char, re: string, text: string) returns (b: bool)
    ensures b <==> exists k: nat :: StarAt(c, re, text, k)
    decreases |re|, 1
  {
    var k: nat := 0;
    while true
      invariant k <= |text| && PieceOk(Star(c), text[..k])
      invariant forall j: nat :: j < k ==> !StarAt(c, re, text, j)
      decreases |text| - k
    {
      b := MatchHere(re, text[k..]);
      if b {
        assert StarAt(c, re, text, k);
        return true;
      }
      if k == |text| || !(text[k] == c || c == '.') {
        forall j: nat | j > k ensures !StarAt(c, re, text, j) {
          assert k < j <= |text| ==> text[..j][k] == text[k];
        }
        return false;
      }
      k := k + 1;
    }
  }

  method Match(re: string, text: string) returns (b: bool)
    ensures b <==> Matches(re, text)
  {
    if re != [] && re[0] == '^' {
      b := MatchHere(re[1..], text);
      return;
    }
    var i: nat := 0;
    while true
      invariant i <= |text|
      invariant forall j: nat :: j < i ==> !MatchAt(re, text, j)
      decreases |text| - i
    {
      b := MatchHere(re, text[i..]);
      if b {
        assert MatchAt(re, text, i);
        return true;
      }
      if i == |text| { return false; }
      i := i + 1;
    }
  }
}
