/** The regular-expression matcher of grep.c. */
module Grep {

  // ---------------------------------------------------------------- what a pattern means

  /** One character of the text: any, or this one. */
  datatype Atom = Any | Only(c: char)

  /** An atom once, or any number of times. */
  datatype Item = One(a: Atom) | Many(a: Atom)

  /** A pattern behind its leading ^: items in a row, and whether they must reach the end of the text. */
  datatype Pattern = Pattern(items: seq<Item>, toEnd: bool)

  function AtomOf(c: char): Atom { if c == '.' then Any else Only(c) }

  predicate Fits(a: Atom, c: char) { a.Any? || a.c == c }

  /** Reading a pattern: a star belongs to the character before it, $ is special only at the end. */
  function Parse(re: string): Pattern {
    if re == [] then Pattern([], false)
    else if |re| > 1 && re[1] == '*' then Prefix(Many(AtomOf(re[0])), Parse(re[2..]))
    else if re == "$" then Pattern([], true)
    else Prefix(One(AtomOf(re[0])), Parse(re[1..]))
  }

  function Prefix(item: Item, p: Pattern): Pattern { p.(items := [item] + p.items) }

  /** The strings of one item. */
  ghost predicate Piece(item: Item, w: string) {
    (item.One? ==> |w| == 1) && forall i :: 0 <= i < |w| ==> Fits(item.a, w[i])
  }

  function Flatten(pieces: seq<string>): string {
    if pieces == [] then [] else pieces[0] + Flatten(pieces[1..])
  }

  /** w is cut into one piece per item. */
  ghost predicate Cut(items: seq<Item>, pieces: seq<string>, w: string) {
    |pieces| == |items| && Flatten(pieces) == w && forall i :: 0 <= i < |items| ==> Piece(items[i], pieces[i])
  }

  ghost predicate Denotes(items: seq<Item>, w: string) {
    exists pieces: seq<string> :: Cut(items, pieces, w)
  }

  /** The first k characters of the text, all of them if p must reach the end, are in p. */
  ghost predicate MatchesTo(p: Pattern, text: string, k: nat) {
    k <= |text| && (p.toEnd ==> k == |text|) && Denotes(p.items, text[..k])
  }

  ghost predicate Here(p: Pattern, text: string) {
    exists k: nat :: MatchesTo(p, text, k)
  }

  /** The meaning of a whole regular expression. */
  ghost predicate Meaning(re: string, text: string) {
    if re != [] && re[0] == '^' then Here(Parse(re[1..]), text)
    else exists i: nat :: i <= |text| && Here(Parse(re), text[i..])
  }

  // ---------------------------------------------------------------- lemmas

  lemma DenotesNil(w: string)
    ensures Denotes([], w) <==> w == []
  {
    if w == [] { assert Cut([], [], w); }
  }

  /** The first item takes a piece off the front. */
  lemma DenotesCons(item: Item, rest: seq<Item>, w: string)
    ensures Denotes([item] + rest, w) <==> exists j: nat :: j <= |w| && Piece(item, w[..j]) && Denotes(rest, w[j..])
  {
    if Denotes([item] + rest, w) {
      var pieces :| Cut([item] + rest, pieces, w);
      var j := |pieces[0]|;
      assert w[..j] == pieces[0] && w[j..] == Flatten(pieces[1..]);
      assert Cut(rest, pieces[1..], w[j..]) by {
        forall i | 0 <= i < |rest| ensures Piece(rest[i], pieces[1..][i]) { assert rest[i] == ([item] + rest)[i + 1]; }
      }
    }
    if j: nat :| j <= |w| && Piece(item, w[..j]) && Denotes(rest, w[j..]) {
      var pieces :| Cut(rest, pieces, w[j..]);
      var all := [w[..j]] + pieces;
      assert all[1..] == pieces && w == w[..j] + w[j..];
      assert Cut([item] + rest, all, w);
    }
  }

  lemma HereNil(text: string)
    ensures Here(Pattern([], false), text)
    ensures Here(Pattern([], true), text) <==> text == []
  {
    DenotesNil(text[..0]);
    assert MatchesTo(Pattern([], false), text, 0);
    if text == [] { assert MatchesTo(Pattern([], true), text, 0); }
    if k: nat :| MatchesTo(Pattern([], true), text, k) { DenotesNil(text[..k]); }
  }

  /** Taking the first item's piece of length j off the text. */
  lemma HereAfter(item: Item, p: Pattern, text: string, j: nat)
    requires j <= |text| && Piece(item, text[..j]) && Here(p, text[j..])
    ensures Here(Prefix(item, p), text)
  {
    var k: nat :| MatchesTo(p, text[j..], k);
    var w := text[..j + k];
    assert w[..j] == text[..j] && w[j..] == text[j..][..k];
    DenotesCons(item, p.items, w);
    assert MatchesTo(Prefix(item, p), text, j + k);
  }

  lemma HereBefore(item: Item, p: Pattern, text: string) returns (j: nat)
    requires Here(Prefix(item, p), text)
    ensures j <= |text| && Piece(item, text[..j]) && Here(p, text[j..])
  {
    var k: nat :| MatchesTo(Prefix(item, p), text, k);
    var w := text[..k];
    DenotesCons(item, p.items, w);
    j :| j <= |w| && Piece(item, w[..j]) && Denotes(p.items, w[j..]);
    assert w[..j] == text[..j] && w[j..] == text[j..][..k - j];
    assert MatchesTo(p, text[j..], k - j);
  }

  lemma HereOne(a: Atom, p: Pattern, text: string)
    ensures Here(Prefix(One(a), p), text) <==> text != [] && Fits(a, text[0]) && Here(p, text[1..])
  {
    if text != [] && Fits(a, text[0]) && Here(p, text[1..]) { HereAfter(One(a), p, text, 1); }
    if Here(Prefix(One(a), p), text) {
      var j := HereBefore(One(a), p, text);
      assert j == |text[..j]| == 1 && text[0] == text[..j][0];
    }
  }

  /** The text splits into characters that fit a and a match of p, no earlier than i. */
  ghost predicate Star(a: Atom, p: Pattern, text: string) {
    exists j: nat :: StarAt(a, p, text, j)
  }

  ghost predicate StarAt(a: Atom, p: Pattern, text: string, j: nat) {
    j <= |text| && Here(p, text[j..]) && forall i :: 0 <= i < j ==> Fits(a, text[i])
  }

  lemma HereMany(a: Atom, p: Pattern, text: string)
    ensures Here(Prefix(Many(a), p), text) <==> Star(a, p, text)
  {
    if j: nat :| StarAt(a, p, text, j) { HereAfter(Many(a), p, text, j); }
    if Here(Prefix(Many(a), p), text) {
      var j := HereBefore(Many(a), p, text);
      forall i | 0 <= i < j ensures Fits(a, text[i]) { assert text[i] == text[..j][i]; }
      assert StarAt(a, p, text, j);
    }
  }

  // ---------------------------------------------------------------- the matcher

  method MatchHere(re: string, text: string) returns (b: bool)
    ensures b <==> Here(Parse(re), text)
    decreases |re|, 0
  {
    HereNil(text);
    if re == [] { return true; }
    if |re| > 1 && re[1] == '*' {
      HereMany(AtomOf(re[0]), Parse(re[2..]), text);
      b := MatchStar(re[0], re[2..], text);
      return;
    }
    if re[0] == '$' && |re| == 1 { return text == []; }
    HereOne(AtomOf(re[0]), Parse(re[1..]), text);
    if text != [] && (re[0] == '.' || re[0] == text[0]) {
      b := MatchHere(re[1..], text[1..]);
      return;
    }
    return false;
  }

  method MatchStar(c: char, re: string, text: string) returns (b: bool)
    ensures b <==> Star(AtomOf(c), Parse(re), text)
    decreases |re|, 1
  {
    var j := 0;
    while true
      invariant 0 <= j <= |text| && forall i :: 0 <= i < j ==> Fits(AtomOf(c), text[i]) && !Here(Parse(re), text[i..])
      decreases |text| - j
    {
      b := MatchHere(re, text[j..]);
      if b {
        assert StarAt(AtomOf(c), Parse(re), text, j);
        return;
      }
      if j == |text| || !(text[j] == c || c == '.') { return false; }
      j := j + 1;
    }
  }

  method Match(re: string, text: string) returns (b: bool)
    ensures b <==> Meaning(re, text)
  {
    if re != [] && re[0] == '^' {
      b := MatchHere(re[1..], text);
      return;
    }
    var i := 0;
    while true
      invariant 0 <= i <= |text| && forall j :: 0 <= j < i ==> !Here(Parse(re), text[j..])
      decreases |text| - i
    {
      b := MatchHere(re, text[i..]);
      if b { return; }
      if i == |text| { return false; }
      i := i + 1;
    }
  }
}
