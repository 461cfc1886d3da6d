/**
  Command lines as texts of tokens: a text reads as a list of tokens if it consists of their texts with
  white space before, between and behind them.  gettoken and peek see exactly those tokens.
 */
module ShellLexing {
  import opened ShellSyntax
  import opened ShellPrint

  /** A word, a symbol, or >>. */
  datatype Tok = Word(w: string) | Sym(c: char) | More

  function Text(t: Tok): string {
    match t
    case Word(w) => w
    case Sym(c) => [c]
    case More => ">>"
  }

  ghost predicate TokOk(t: Tok) {
    match t
    case Word(w) => ValidWord(w)
    case Sym(c) => IsSymbol(c)
    case More => true
  }

  ghost predicate White(g: string) {
    forall k :: 0 <= k < |g| ==> IsSpace(g[k])
  }

  /** Without white space between them the two tokens would be read as something else. */
  predicate Merge(t: Tok, u: Tok) {
    (t.Word? && u.Word?) || (t == Sym('>') && (u == Sym('>') || u == More))
  }

  /** The tokens with white space before each and behind the last. */
  function Spread(ts: seq<Tok>, gaps: seq<string>): string
    requires |gaps| == |ts| + 1
  {
    if ts == [] then gaps[0] else gaps[0] + Text(ts[0]) + Spread(ts[1..], gaps[1..])
  }

  ghost predicate GapsOk(ts: seq<Tok>, gaps: seq<string>) {
    && |gaps| == |ts| + 1 && (forall k :: 0 <= k < |gaps| ==> White(gaps[k])) && (forall k :: 0 <= k < |ts| ==> TokOk(ts[k]))
    && forall k :: 0 < k < |ts| && Merge(ts[k-1], ts[k]) ==> gaps[k] != []
  }

  ghost predicate Fits(s: string, i: nat, ts: seq<Tok>, gaps: seq<string>) {
    i <= |s| && GapsOk(ts, gaps) && s[i..] == Spread(ts, gaps)
  }

  /** From position i on the text s reads as the tokens ts. */
  ghost predicate Reads(s: string, i: nat, ts: seq<Tok>) {
    exists gaps :: Fits(s, i, ts, gaps)
  }

  /** What gettoken calls the token. */
  function Kind(t: Tok): char {
    match t
    case Word(_) => 'a'
    case Sym(c) => c
    case More => '+'
  }

  // ----- white space -----

  lemma {:induction false} SkipWhite(s: string, i: nat, n: nat)
    requires i + n <= |s| && White(s[i..i + n]) && (i + n == |s| || !IsSpace(s[i + n]))
    ensures SkipSpace(s, i) == i + n
    decreases n
  {
    if n > 0 {
      assert s[i] == s[i..i + n][0];
      assert s[i+1..i + n] == s[i..i + n][1..];
      SkipWhite(s, i + 1, n - 1);
    }
  }

  /** A token begins with a character that is neither white space nor NUL. */
  lemma TextStart(t: Tok)
    requires TokOk(t)
    ensures Text(t) != [] && !IsSpace(Text(t)[0]) && Text(t)[0] != NUL
    ensures IsSymbol(Text(t)[0]) <==> !t.Word?
  {
    if t.Word? { assert IsWordChar(t.w[0]); }
  }

  /** Only white space is left. */
  lemma ReadsEnd(s: string, i: nat)
    requires Reads(s, i, [])
    ensures i <= |s| && SkipSpace(s, i) == |s| && GetToken(s, i) == Token(NUL, |s|, |s|, |s|) && Reads(s, |s|, [])
    ensures At(s, SkipSpace(s, i)) == NUL
  {
    var gaps :| Fits(s, i, [], gaps);
    assert s[i..i + |gaps[0]|] == s[i..] == gaps[0];
    SkipWhite(s, i, |gaps[0]|);
    assert Fits(s, |s|, [], [""]);
  }

  // ----- the next token -----

  /** s from i on is white space and then the rest, which begins with something else or is empty. */
  lemma AfterGap(s: string, i: nat, g: string, rest: string)
    requires i <= |s| && s[i..] == g + rest && White(g) && (rest != [] ==> !IsSpace(rest[0]))
    ensures i + |g| <= |s| && SkipSpace(s, i) == i + |g| && s[i + |g|..] == rest
  {
    assert s[i..i + |g|] == s[i..][..|g|] == g;
    assert s[i + |g|..] == s[i..][|g|..] == rest;
    if rest != [] { assert s[i + |g|] == s[i + |g|..][0]; }
    SkipWhite(s, i, |g|);
  }

  /** A text of tokens without white space in front begins with no white space. */
  lemma SpreadStart(ts: seq<Tok>, gaps: seq<string>)
    requires GapsOk(ts, gaps) && gaps[0] == []
    ensures Spread(ts, gaps) != [] <==> ts != []
    ensures ts != [] ==> Spread(ts, gaps)[0] == Text(ts[0])[0] && !IsSpace(Spread(ts, gaps)[0])
  {
    if ts != [] { TextStart(ts[0]); }
  }

  lemma SpreadGap(ts: seq<Tok>, gaps: seq<string>)
    requires GapsOk(ts, gaps)
    ensures GapsOk(ts, gaps[0 := ""]) && Spread(ts, gaps) == gaps[0] + Spread(ts, gaps[0 := ""])
  {
    if ts != [] {
      assert gaps[0 := ""][1..] == gaps[1..];
      assert gaps[0] + (Text(ts[0]) + Spread(ts[1..], gaps[1..])) == gaps[0] + Text(ts[0]) + Spread(ts[1..], gaps[1..]);
    }
  }

  lemma GapsTail(ts: seq<Tok>, gaps: seq<string>)
    requires ts != [] && GapsOk(ts, gaps)
    ensures GapsOk(ts[1..], gaps[1..])
  {
    assert forall k :: 0 <= k < |ts| - 1 ==> ts[1..][k] == ts[k+1] && gaps[1..][k] == gaps[k+1];
  }

  /** Where the first token stands, and what follows it. */
  lemma FirstAt(s: string, i: nat, ts: seq<Tok>, gaps: seq<string>)
    requires ts != [] && Fits(s, i, ts, gaps)
    ensures i <= |s| && |gaps| == |ts| + 1
    ensures var p, t := i + |gaps[0]|, Text(ts[0]);
      && SkipSpace(s, i) == p && p + |t| <= |s| && Stands(s, p, t) && s[p + |t|..] == Spread(ts[1..], gaps[1..])
      && Fits(s, p, ts, gaps[0 := ""]) && GapsOk(ts, gaps) && TokOk(ts[0])
  {
    assert White(gaps[0]) && TokOk(ts[0]);
    hide Spread, GapsOk, Text, TokOk, White;
    var t, rest := Text(ts[0]), Spread(ts[1..], gaps[1..]);
    SpreadGap(ts, gaps);
    SpreadStart(ts, gaps[0 := ""]);
    SpreadFirst(ts, gaps[0 := ""]);
    assert gaps[0 := ""][1..] == gaps[1..];
    AfterGap(s, i, gaps[0], t + rest);
    TwoParts(s, i + |gaps[0]|, t, rest);
  }

  lemma SpreadFirst(ts: seq<Tok>, gaps: seq<string>)
    requires ts != [] && |gaps| == |ts| + 1 && gaps[0] == []
    ensures Spread(ts, gaps) == Text(ts[0]) + Spread(ts[1..], gaps[1..])
  {
    assert [] + Text(ts[0]) == Text(ts[0]);
  }

  lemma TwoParts(s: string, p: nat, t: string, rest: string)
    requires p <= |s| && s[p..] == t + rest
    ensures p + |t| <= |s| && Stands(s, p, t) && s[p + |t|..] == rest
  {
    assert s[p..p + |t|] == s[p..][..|t|] == t;
    assert s[p + |t|..] == s[p..][|t|..];
  }

  /** What stands behind the first token does not belong to it. */
  lemma TokenEnds(s: string, p: nat, ts: seq<Tok>, gaps: seq<string>)
    requires ts != [] && GapsOk(ts, gaps) && p <= |s| && s[p..] == Spread(ts[1..], gaps[1..])
    ensures ts[0].Word? ==> p == |s| || IsSpace(s[p]) || IsSymbol(s[p])
    ensures ts[0] == Sym('>') ==> At(s, p) != '>'
  {
    GapsTail(ts, gaps);
    if p < |s| {
      assert s[p] == s[p..][0];
      if gaps[1] != [] {
        assert White(gaps[1]) && IsSpace(gaps[1][0]);
        assert Spread(ts[1..], gaps[1..])[0] == gaps[1][0];
      } else {
        SpreadStart(ts[1..], gaps[1..]);
        assert ts[1..][0] == ts[1] && TokOk(ts[1]) && !Merge(ts[0], ts[1]);
        TextStart(ts[1]);
      }
    }
  }

  /** Behind the first token, and the white space after it, the text reads as the other tokens. */
  lemma RestReads(s: string, p: nat, ts: seq<Tok>, gaps: seq<string>)
    requires ts != [] && GapsOk(ts, gaps) && p <= |s| && s[p..] == Spread(ts[1..], gaps[1..])
    ensures Reads(s, SkipSpace(s, p), ts[1..])
  {
    GapsTail(ts, gaps);
    var us, hs := ts[1..], gaps[1..];
    SpreadGap(us, hs);
    SpreadStart(us, hs[0 := ""]);
    AfterGap(s, p, hs[0], Spread(us, hs[0 := ""]));
    assert Fits(s, SkipSpace(s, p), us, hs[0 := ""]);
  }

  /** gettoken at a token that stands at p. */
  lemma TokenAt(s: string, i: nat, p: nat, t: Tok)
    requires i <= |s| && SkipSpace(s, i) == p && TokOk(t) && Stands(s, p, Text(t))
    requires t.Word? ==> p + |Text(t)| == |s| || IsSpace(s[p + |Text(t)|]) || IsSymbol(s[p + |Text(t)|])
    requires t == Sym('>') ==> At(s, p + 1) != '>'
    ensures p < |s| && s[p] == Text(t)[0] != NUL
    ensures GetToken(s, i) == Token(Kind(t), p, p + |Text(t)|, SkipSpace(s, p + |Text(t)|))
    ensures t.Word? ==> s[p..p + |Text(t)|] == t.w
  {
    TextStart(t);
    assert s[p] == s[p..p + |Text(t)|][0] == Text(t)[0];
    hide SkipSpace;
    match t
    case Word(w) => SkipWordTo(s, p, w);
    case Sym(c) =>
    case More => assert s[p + 1] == s[p..p + 2][1] == '>';
  }

  /** gettoken returns the first token and leaves the others; peek looks at its first character. */
  lemma ReadsNext(s: string, i: nat, ts: seq<Tok>)
    requires ts != [] && Reads(s, i, ts)
    ensures i <= |s| && TokOk(ts[0]) && Reads(s, SkipSpace(s, i), ts)
    ensures var t := GetToken(s, i);
      && t.kind == Kind(ts[0]) && (ts[0].Word? ==> s[t.q..t.eq] == ts[0].w) && Reads(s, t.next, ts[1..])
    ensures Text(ts[0]) != [] && At(s, SkipSpace(s, i)) == Text(ts[0])[0] != NUL
  {
    hide Fits, GapsOk, Spread, SkipSpace, GetToken, TokOk, Stands, Kind;
    var gaps :| Fits(s, i, ts, gaps);
    FirstAt(s, i, ts, gaps);
    var p, t := i + |gaps[0]|, Text(ts[0]);
    TokenEnds(s, p + |t|, ts, gaps);
    RestReads(s, p + |t|, ts, gaps);
    TextStart(ts[0]);
    TokenAt(s, i, p, ts[0]);
    assert Fits(s, p, ts, gaps[0 := ""]);
  }

  lemma ReadsHere(s: string, i: nat, ts: seq<Tok>)
    requires Reads(s, i, ts)
    ensures i <= |s| && Reads(s, SkipSpace(s, i), ts)
  {
    if ts == [] { ReadsEnd(s, i); } else { ReadsNext(s, i, ts); }
  }

  // ----- every line is a text of tokens -----

  lemma {:induction false} SkippedIsWhite(s: string, i: nat)
    requires i <= |s|
    ensures White(s[i..SkipSpace(s, i)])
    decreases |s| - i
  {
    if i < |s| && IsSpace(s[i]) {
      SkippedIsWhite(s, i + 1);
      var j := SkipSpace(s, i + 1);
      assert s[i..j] == [s[i]] + s[i+1..j];
    }
  }

  lemma {:induction false} WordStops(s: string, i: nat)
    requires i <= |s|
    ensures var j := SkipWord(s, i); j == |s| || IsSpace(s[j]) || IsSymbol(s[j])
    ensures i < |s| && !IsSpace(s[i]) && !IsSymbol(s[i]) ==> SkipWord(s, i) > i
    decreases |s| - i
  {
    if i < |s| && !IsSpace(s[i]) && !IsSymbol(s[i]) { WordStops(s, i + 1); }
  }

  /** The token that gettoken finds, as it stands in the text. */
  lemma TokenFound(s: string, i: nat) returns (t: Tok)
    requires i <= |s| && NUL !in s && SkipSpace(s, i) < |s|
    ensures var p := SkipSpace(s, i); TokOk(t) && Stands(s, p, Text(t)) && p + |Text(t)| > i
    ensures var e := SkipSpace(s, i) + |Text(t)|;
      && (t.Word? ==> e == |s| || IsSpace(s[e]) || IsSymbol(s[e])) && (t == Sym('>') ==> At(s, e) != '>')
  {
    var p := SkipSpace(s, i);
    if s[p] == '>' && At(s, p + 1) == '>' {
      t := More;
    } else if IsSymbol(s[p]) {
      t := Sym(s[p]);
    } else {
      WordStops(s, p);
      SkipWordChars(s, p);
      t := Word(s[p..SkipWord(s, p)]);
    }
  }

  lemma PutBefore(s: string, i: nat, p: nat, t: Tok, ts: seq<Tok>, gaps: seq<string>)
    requires i <= p <= |s| && White(s[i..p]) && TokOk(t) && Stands(s, p, Text(t)) && Fits(s, p + |Text(t)|, ts, gaps)
    requires ts != [] && Merge(t, ts[0]) ==> gaps[0] != []
    ensures Fits(s, i, [t] + ts, [s[i..p]] + gaps)
  {
    var us, hs := [t] + ts, [s[i..p]] + gaps;
    assert us[1..] == ts && hs[1..] == gaps;
    var e := p + |Text(t)|;
    assert s[i..] == s[i..p] + (s[p..e] + s[e..]);
    assert s[i..p] + Text(t) + s[e..] == s[i..];
    assert forall k :: 0 < k < |us| ==> us[k] == ts[k-1] && hs[k] == gaps[k-1];
  }

  /** Every C string reads as some list of tokens. */
  lemma {:induction false} Lexes(s: string, i: nat) returns (ts: seq<Tok>)
    requires i <= |s| && NUL !in s
    ensures Reads(s, i, ts)
    decreases |s| - i
  {
    SkippedIsWhite(s, i);
    var p := SkipSpace(s, i);
    if p == |s| {
      assert s[i..p] == s[i..];
      assert Fits(s, i, [], [s[i..]]);
      return [];
    }
    var t := TokenFound(s, i);
    var e := p + |Text(t)|;
    var us := Lexes(s, e);
    var gaps :| Fits(s, e, us, gaps);
    if us != [] && gaps[0] == [] {
      SpreadStart(us, gaps);
      TextStart(us[0]);
      assert s[e] == s[e..][0];
    }
    PutBefore(s, i, p, t, us, gaps);
    ts := [t] + us;
  }
}
