/**
  The regular expression matcher of grep.c against a declarative meaning of its patterns: a pattern
  denotes a sequence of items, a text matches if it can be cut into pieces, one for each item.
  Texts and patterns are the C strings without their terminating NUL.
 */
module Grep {

  /** A character taken once, or any number of times; '.' stands for any character. */
  datatype Item = One(c: char) | Star(c: char)

  /** The items of a pattern, and whether it ends in the anchor '$'. */
  datatype Pattern = Pattern(items: seq<Item>, anchored: bool)

  ghost function Parse(re: string): (p: Pattern) {
    if re == [] then Pattern([], false)
    else if |re| >= 2 && re[1] == '*' then
      var p := Parse(re[2..]);
      p.(items := [Star(re[0])] + p.items)
    else if re == "$" then Pattern([], true)
    else
      var p := Parse(re[1..]);
      p.(items := [One(re[0])] + p.items)
  }

  predicate Accepts(c: char, x: char) {
    c == '.' || c == x
  }

  ghost predicate AllAccepted(c: char, s: string) {
    forall i :: 0 <= i < |s| ==> Accepts(c, s[i])
  }

  ghost predicate ItemDenotes(it: Item, s: string) {
    match it
    case One(c) => |s| == 1 && Accepts(c, s[0])
    case Star(c) => AllAccepted(c, s)
  }

  ghost function Flatten(pieces: seq<string>): string {
    if pieces == [] then [] else pieces[0] + Flatten(pieces[1..])
  }

  ghost predicate Cut(items: seq<Item>, s: string, pieces: seq<string>) {
    |pieces| == |items| && Flatten(pieces) == s && forall k :: 0 <= k < |items| ==> ItemDenotes(items[k], pieces[k])
  }

  /** s can be cut into pieces that the items denote. */
  ghost predicate Denotes(items: seq<Item>, s: string) {
    exists pieces :: Cut(items, s, pieces)
  }

  /** The first j characters of text are what p denotes. */
  ghost predicate PrefixMatches(p: Pattern, text: string, j: nat) {
    j <= |text| && Denotes(p.items, text[..j]) && (p.anchored ==> j == |text|)
  }

  /** p matches at the beginning of text. */
  ghost predicate MatchesHere(p: Pattern, text: string) {
    exists j: nat :: PrefixMatches(p, text, j)
  }

  /** The meaning of a whole pattern: a leading '^' pins the match to the start, else it may be anywhere. */
  ghost predicate Matches(re: string, text: string) {
    if |re| >= 1 && re[0] == '^' then MatchesHere(Parse(re[1..]), text)
    else exists i :: 0 <= i <= |text| && MatchesHere(Parse(re), text[i..])
  }

  // ----- the meaning, item by item -----

  lemma NothingDenotes(s: string)
    ensures Denotes([], s) <==> s == []
  {
    if s == [] { assert Cut([], [], []); }
  }

  /** The first item takes the first k characters, the others the rest. */
  ghost predicate SplitAt(it: Item, items: seq<Item>, s: string, k: int) {
    0 <= k <= |s| && ItemDenotes(it, s[..k]) && Denotes(items, s[k..])
  }

  lemma CutFirst(it: Item, items: seq<Item>, s: string, pieces: seq<string>) returns (k: nat)
    requires Cut([it] + items, s, pieces)
    ensures SplitAt(it, items, s, k)
  {
    var all := [it] + items;
    k := |pieces[0]|;
    assert ItemDenotes(all[0], pieces[0]) && s[..k] == pieces[0] && s[k..] == Flatten(pieces[1..]);
    assert Cut(items, s[k..], pieces[1..]) by {
      forall i | 0 <= i < |items| ensures ItemDenotes(items[i], pieces[1..][i]) { assert ItemDenotes(all[i+1], pieces[i+1]); }
    }
  }

  lemma CutMore(it: Item, items: seq<Item>, s: string, k: nat, rest: seq<string>)
    requires k <= |s| && ItemDenotes(it, s[..k]) && Cut(items, s[k..], rest)
    ensures Cut([it] + items, s, [s[..k]] + rest)
  {
    var all, pieces := [it] + items, [s[..k]] + rest;
    assert pieces[1..] == rest && s == s[..k] + s[k..];
    forall i | 0 <= i < |all| ensures ItemDenotes(all[i], pieces[i]) {
      if i > 0 { assert ItemDenotes(items[i-1], rest[i-1]); }
    }
  }

  /** The first item takes some prefix, the others the rest. */
  lemma DenotesCons(it: Item, items: seq<Item>, s: string)
    ensures Denotes([it] + items, s) <==> exists k :: SplitAt(it, items, s, k)
  {
    hide ItemDenotes, Cut;
    if Denotes([it] + items, s) {
      var pieces :| Cut([it] + items, s, pieces);
      var k := CutFirst(it, items, s, pieces);
    }
    forall k | SplitAt(it, items, s, k) ensures Denotes([it] + items, s) {
      var rest :| Cut(items, s[k..], rest);
      CutMore(it, items, s, k, rest);
    }
  }

  lemma EmptyPattern(p: Pattern, text: string)
    requires p.items == []
    ensures MatchesHere(p, text) <==> !p.anchored || text == []
  {
    forall j: nat | j <= |text| ensures Denotes([], text[..j]) <==> j == 0 { NothingDenotes(text[..j]); }
    if !p.anchored || text == [] { assert PrefixMatches(p, text, 0); }
  }

  lemma OneHere(c: char, p: Pattern, text: string)
    ensures MatchesHere(p.(items := [One(c)] + p.items), text)
       <==> text != [] && Accepts(c, text[0]) && MatchesHere(p, text[1..])
  {
    var q := p.(items := [One(c)] + p.items);
    if MatchesHere(q, text) {
      var j: nat :| PrefixMatches(q, text, j);
      var s := text[..j];
      DenotesCons(One(c), p.items, s);
      var k :| SplitAt(One(c), p.items, s, k);
      assert s[1..] == text[1..][..j-1];
      assert PrefixMatches(p, text[1..], j - 1);
    }
    if text != [] && Accepts(c, text[0]) && MatchesHere(p, text[1..]) {
      var j: nat :| PrefixMatches(p, text[1..], j);
      var s := text[..j+1];
      DenotesCons(One(c), p.items, s);
      assert s[1..] == text[1..][..j];
      assert SplitAt(One(c), p.items, s, 1);
      assert PrefixMatches(q, text, j + 1);
    }
  }

  /** c taken some number of times, then the rest of the pattern. */
  ghost predicate StarAt(c: char, p: Pattern, text: string, k: nat) {
    k <= |text| && AllAccepted(c, text[..k]) && MatchesHere(p, text[k..])
  }

  ghost predicate StarMatches(c: char, p: Pattern, text: string) {
    exists k: nat :: StarAt(c, p, text, k)
  }

  lemma StarHere(c: char, p: Pattern, text: string)
    ensures MatchesHere(p.(items := [Star(c)] + p.items), text) <==> StarMatches(c, p, text)
  {
    var q := p.(items := [Star(c)] + p.items);
    if MatchesHere(q, text) {
      var j: nat :| PrefixMatches(q, text, j);
      var s := text[..j];
      DenotesCons(Star(c), p.items, s);
      var k :| SplitAt(Star(c), p.items, s, k);
      assert s[..k] == text[..k] && s[k..] == text[k..][..j-k];
      assert PrefixMatches(p, text[k..], j - k);
      assert StarAt(c, p, text, k);
    }
    if StarMatches(c, p, text) {
      var k: nat :| StarAt(c, p, text, k);
      var j: nat :| PrefixMatches(p, text[k..], j);
      var s := text[..k+j];
      DenotesCons(Star(c), p.items, s);
      assert s[..k] == text[..k] && s[k..] == text[k..][..j];
      assert SplitAt(Star(c), p.items, s, k);
      assert PrefixMatches(q, text, k + j);
    }
  }

  // ----- the matcher -----

  /** matchhere: search for re at the beginning of text. */
  method MatchHere(re: string, text: string) returns (b: bool)
    ensures b <==> MatchesHere(Parse(re), text)
    decreases |re|, 0
  {
    if |re| == 0 {
      EmptyPattern(Parse(re), text);
      return true;
    }
    if |re| >= 2 && re[1] == '*' {
      StarHere(re[0], Parse(re[2..]), text);
      b := MatchStar(re[0], re[2..], text);
      return;
    }
    if re[0] == '$' && |re| == 1 {
      assert re == "$";
      EmptyPattern(Parse(re), text);
      return |text| == 0;
    }
    assert re != "$";
    OneHere(re[0], Parse(re[1..]), text);
    if |text| != 0 && (re[0] == '.' || re[0] == text[0]) {
      b := MatchHere(re[1..], text[1..]);
      return;
    }
    return false;
  }

  /** matchstar: search for c*re at the beginning of text. */
  method MatchStar(c: char, re: string, text: string) returns (b: bool)
    ensures b <==> StarMatches(c, Parse(re), text)
    decreases |re|, 1
  {
    var k := 0;
    while true
      invariant 0 <= k <= |text| && AllAccepted(c, text[..k])
      invariant forall j: nat :: j < k ==> !StarAt(c, Parse(re), text, j)
      decreases |text| - k
    {
      b := MatchHere(re, text[k..]);
      if b {
        assert StarAt(c, Parse(re), text, k);
        return;
      }
      if k == |text| || !(text[k] == c || c == '.') {
        forall j: nat ensures !StarAt(c, Parse(re), text, j) {
          if j > k && j <= |text| { assert text[..j][k] == text[k]; }
        }
        return false;
      }
      k := k + 1;
    }
  }

  /** match: the matcher finds a match exactly when the pattern's meaning holds of the text. */
  method Match(re: string, text: string) returns (b: bool)
    ensures b <==> Matches(re, text)
  {
    if |re| >= 1 && re[0] == '^' {
      b := MatchHere(re[1..], text);
      return;
    }
    var i := 0;
    while true
      invariant 0 <= i <= |text| && forall j :: 0 <= j < i ==> !MatchesHere(Parse(re), text[j..])
      decreases |text| - i
    {
      b := MatchHere(re, text[i..]);
      if b {
        return;
      }
      if i == |text| {
        return false;
      }
      i := i + 1;
    }
  }
}
