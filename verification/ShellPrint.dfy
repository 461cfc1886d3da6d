/**
  Printing command trees and reading them back: the parser of sh.c inverts the canonical
  parenthesised text of every tree it can produce.
 */
module ShellPrint {
  import opened ShellSyntax

  predicate IsWordChar(c: char) {
    c != NUL && !IsSpace(c) && !IsSymbol(c)
  }

  ghost predicate ValidWord(w: string) {
    w != [] && forall i :: 0 <= i < |w| ==> IsWordChar(w[i])
  }

  ghost predicate ValidWords(ws: seq<string>) {
    forall i :: 0 <= i < |ws| ==> ValidWord(ws[i])
  }

  /** The trees the parser can produce: real words, and at most 19 of them in a command. */
  ghost predicate ValidCmd(c: Cmd) {
    match c
    case Exec(argv) => |argv| < MAXARGS && ValidWords(argv)
    case Redir(d, file, mode) => ValidCmd(d) && ValidWord(file)
    case Pipe(l, r) => ValidCmd(l) && ValidCmd(r)
    case List(l, r) => ValidCmd(l) && ValidCmd(r)
    case Back(d) => ValidCmd(d)
  }

  function PrintArgs(argv: seq<string>): string {
    if argv == [] then [] else argv[0] + " " + PrintArgs(argv[1..])
  }

  /** The canonical text: every sub-command in parentheses. */
  function Print(c: Cmd): string
    decreases c, 0
  {
    match c
    case Exec(argv) => PrintArgs(argv)
    case Redir(d, file, mode) => Paren(d) + (if mode == Input then "<" else ">") + file
    case Pipe(l, r) => Paren(l) + "|" + Paren(r)
    case List(l, r) => Paren(l) + ";" + Paren(r)
    case Back(d) => Paren(d) + "&"
  }

  function Paren(c: Cmd): string
    decreases c, 1
  {
    "(" + Print(c) + ")"
  }

  /** The text w stands in s at position i. */
  ghost predicate Stands(s: string, i: nat, w: string) {
    i + |w| <= |s| && s[i..i + |w|] == w
  }

  /** At i the text ends, or a closing parenthesis stands. */
  ghost predicate Closed(s: string, i: nat) {
    i <= |s| && (i == |s| || s[i] == ')')
  }

  // ----- tokens at a known place -----

  lemma StandsAt(s: string, i: nat, v: string, w: string)
    ensures Stands(s, i, v + w) <==> Stands(s, i, v) && Stands(s, i + |v|, w)
  {
    if Stands(s, i, v + w) {
      assert s[i..i + |v|] == (v + w)[..|v|];
      assert s[i + |v|..i + |v| + |w|] == (v + w)[|v|..];
    }
    if Stands(s, i, v) && Stands(s, i + |v|, w) {
      assert s[i..i + |v| + |w|] == s[i..i + |v|] + s[i + |v|..i + |v| + |w|];
    }
  }

  lemma {:induction false} SkipWordTo(s: string, i: nat, w: string)
    requires Stands(s, i, w) && (forall k :: 0 <= k < |w| ==> IsWordChar(w[k]))
    requires i + |w| == |s| || IsSpace(s[i + |w|]) || IsSymbol(s[i + |w|])
    ensures SkipWord(s, i) == i + |w|
    decreases |w|
  {
    if w != [] {
      assert s[i] == s[i..i + |w|][0] == w[0];
      assert s[i+1..i+1 + |w[1..]|] == w[1..];
      SkipWordTo(s, i + 1, w[1..]);
    }
  }

  /** A symbol is a token of its own. */
  lemma SymbolToken(s: string, i: nat)
    requires i < |s| && IsSymbol(s[i]) && s[i] != '>'
    ensures GetToken(s, i).kind == s[i] && GetToken(s, i).eq == i + 1 && GetToken(s, i).next == SkipSpace(s, i + 1)
    ensures SkipSpace(s, i) == i
  {
  }

  lemma WordToken(s: string, i: nat, w: string)
    requires Stands(s, i, w) && ValidWord(w)
    requires i + |w| == |s| || IsSpace(s[i + |w|]) || IsSymbol(s[i + |w|])
    ensures i < |s| && IsWordChar(s[i]) && SkipSpace(s, i) == i
    ensures GetToken(s, i) == Token('a', i, i + |w|, SkipSpace(s, i + |w|)) && s[i..i + |w|] == w
  {
    assert s[i] == s[i..i + |w|][0] == w[0];
    SkipWordTo(s, i, w);
  }

  /** At a closed position nothing but the closing can follow. */
  lemma NothingFollows(s: string, e: nat)
    requires Closed(s, e)
    ensures SkipSpace(s, e) == e
    ensures !Peek(s, e, "|") && !Peek(s, e, "&") && !Peek(s, e, ";") && !Peek(s, e, "<>") && !Peek(s, e, "(")
    ensures e < |s| ==> Peek(s, e, "|)&;")
    ensures e == |s| ==> !Peek(s, e, "|)&;") && GetToken(s, e) == Token(NUL, e, e, e)
  {
  }

  // ----- simple commands -----

  /** A list of arguments starts with a word or is empty. */
  lemma ArgsStart(s: string, i: nat, argv: seq<string>)
    requires ValidWords(argv) && Stands(s, i, PrintArgs(argv)) && Closed(s, i + |PrintArgs(argv)|)
    ensures SkipSpace(s, i) == i && !Peek(s, i, "(") && !Peek(s, i, "<>")
    ensures argv != [] ==> !Peek(s, i, "|)&;")
  {
    if argv == [] {
      NothingFollows(s, i);
    } else {
      StandsAt(s, i, argv[0], " " + PrintArgs(argv[1..]));
      assert argv[0] + (" " + PrintArgs(argv[1..])) == PrintArgs(argv);
      assert ValidWord(argv[0]);
      assert s[i] == s[i..i + |argv[0]|][0] == argv[0][0];
    }
  }

  /** Where the arguments behind the first one stand. */
  lemma ArgsSplit(s: string, i: nat, argv: seq<string>)
    requires argv != [] && ValidWords(argv) && Stands(s, i, PrintArgs(argv)) && Closed(s, i + |PrintArgs(argv)|)
    ensures var n := i + |argv[0]| + 1;
      && Stands(s, i, argv[0]) && ValidWord(argv[0]) && s[n - 1] == ' '
      && ValidWords(argv[1..]) && Stands(s, n, PrintArgs(argv[1..])) && n + |PrintArgs(argv[1..])| == i + |PrintArgs(argv)|
      && SkipSpace(s, n - 1) == n && SkipSpace(s, n) == n && !Peek(s, n, "<>")
  {
    var w, rest := argv[0], argv[1..];
    assert w + (" " + PrintArgs(rest)) == PrintArgs(argv);
    StandsAt(s, i, w, " " + PrintArgs(rest));
    StandsAt(s, i + |w|, " ", PrintArgs(rest));
    assert s[i + |w|] == s[i + |w|..i + |w| + 1][0] == ' ';
    ArgsStart(s, i + |w| + 1, rest);
    hide Peek, PrintArgs, Closed;
  }

  lemma ArgsStep(s: string, i: nat, before: seq<string>, argv: seq<string>)
    requires argv != [] && ValidWords(argv) && |before| + |argv| < MAXARGS
    requires Stands(s, i, PrintArgs(argv)) && Closed(s, i + |PrintArgs(argv)|)
    ensures ParseArgs(s, i, before, []) == ParseArgs(s, i + |argv[0]| + 1, before + [argv[0]], [])
  {
    hide PrintArgs, Stands, GetToken, SkipSpace, Peek, Closed;
    ArgsSplit(s, i, argv);
    ArgsStart(s, i, argv);
    WordToken(s, i, argv[0]);
    var n := i + |argv[0]| + 1;
    assert ParseRedirs(s, n, []) == Ok([], n);
  }

  lemma ArgsEnd(s: string, i: nat, before: seq<string>)
    requires Closed(s, i)
    ensures ParseArgs(s, i, before, []) == Ok(Exec(before), i)
  {
    hide GetToken, SkipSpace, Peek, ParseRedirs;
    NothingFollows(s, i);
  }

  lemma {:induction false} ArgsOk(s: string, i: nat, before: seq<string>, argv: seq<string>)
    requires ValidWords(argv) && |before| + |argv| < MAXARGS
    requires Stands(s, i, PrintArgs(argv)) && Closed(s, i + |PrintArgs(argv)|)
    ensures ParseArgs(s, i, before, []) == Ok(Exec(before + argv), i + |PrintArgs(argv)|)
    decreases |argv|
  {
    hide ParseArgs, GetToken, SkipSpace, Peek, ParseRedirs;
    if argv == [] {
      ArgsEnd(s, i, before);
      assert before + [] == before;
    } else {
      ArgsSplit(s, i, argv);
      ArgsStep(s, i, before, argv);
      ArgsOk(s, i + |argv[0]| + 1, before + [argv[0]], argv[1..]);
      assert before + [argv[0]] + argv[1..] == before + argv;
    }
  }

  // ----- from the inside out -----

  lemma LineOfExec(s: string, i: nat, c: Cmd, e: nat)
    requires i <= |s| && ParseExec(s, i) == Ok(c, e) && Closed(s, e)
    ensures ParsePipe(s, i) == Ok(c, e) && ParseLine(s, i) == Ok(c, e)
  {
    hide ParseExec;
    NothingFollows(s, e);
  }

  /** A canonical text starts with a word or a parenthesis, or is empty. */
  lemma PrintStart(s: string, i: nat, c: Cmd)
    requires ValidCmd(c) && Stands(s, i, Print(c)) && Closed(s, i + |Print(c)|)
    ensures SkipSpace(s, i) == i
  {
    if c.Exec? {
      ArgsStart(s, i, c.argv);
    } else {
      assert Print(c)[0] == '(';
      assert s[i] == s[i..i + |Print(c)|][0] == Print(c)[0];
    }
  }

  /** A parenthesised command parses to the command, then its redirections are read. */
  lemma BlockOk(s: string, i: nat, c: Cmd)
    requires ValidCmd(c) && Stands(s, i, Paren(c)) && ParseLine(s, i + 1) == Ok(c, i + 1 + |Print(c)|)
    ensures Stands(s, i + 1, Print(c)) && Closed(s, i + 1 + |Print(c)|)
    ensures var f := ParseRedirs(s, SkipSpace(s, i + |Paren(c)|), []);
      ParseExec(s, i) == if f.Panic? then Panic(f.msg) else Ok(Wrap(c, f.value), f.pos)
  {
    hide ParseLine, ParseRedirs;
    ParenAt(s, i, c);
    SymbolToken(s, i);
    PrintStart(s, i + 1, c);
    SymbolToken(s, i + 1 + |Print(c)|);
  }

  lemma ParenAt(s: string, i: nat, c: Cmd)
    requires Stands(s, i, Paren(c))
    ensures i + |Paren(c)| <= |s| && |Paren(c)| == |Print(c)| + 2
    ensures s[i] == '(' && Stands(s, i + 1, Print(c)) && s[i + 1 + |Print(c)|] == ')'
  {
    StandsAt(s, i, "(" + Print(c), ")");
    StandsAt(s, i, "(", Print(c));
    assert s[i] == s[i..i+1][0];
    assert s[i + 1 + |Print(c)|] == s[i + 1 + |Print(c)|..i + 2 + |Print(c)|][0];
  }

  /** Without a redirection behind it, a parenthesised command is just the command. */
  lemma BlockAlone(s: string, i: nat, c: Cmd, e: nat)
    requires ValidCmd(c) && Stands(s, i, Paren(c)) && ParseLine(s, i + 1) == Ok(c, i + 1 + |Print(c)|)
    requires e == i + |Paren(c)| && (e == |s| || (IsSymbol(s[e]) && s[e] != '<' && s[e] != '>'))
    ensures ParseExec(s, i) == Ok(c, e)
  {
    hide ParseExec, ParseLine, ParseRedirs, SkipSpace, GetToken, Peek;
    BlockOk(s, i, c);
    NoRedirs(s, e);
  }

  lemma NoRedirs(s: string, e: nat)
    requires e == |s| || (e < |s| && IsSymbol(s[e]) && s[e] != '<' && s[e] != '>')
    ensures SkipSpace(s, e) == e && ParseRedirs(s, e, []) == Ok([], e)
  {
    hide GetToken;
  }

  /** A redirection behind a parenthesised command attaches its file. */
  lemma RedirOk(s: string, i: nat, c: Cmd, file: string, mode: Mode, e: nat)
    requires ValidCmd(c) && ValidWord(file) && Stands(s, i, Print(Redir(c, file, mode))) && Closed(s, e)
    requires e == i + |Print(Redir(c, file, mode))| && Stands(s, i, Paren(c))
    requires ParseLine(s, i + 1) == Ok(c, i + 1 + |Print(c)|)
    ensures ParseExec(s, i) == Ok(Redir(c, file, mode), e)
  {
    hide ParseExec, ParseLine, ParseRedirs, SkipSpace, GetToken, Peek;
    BlockOk(s, i, c);
    var p, sym := i + |Paren(c)|, if mode == Input then "<" else ">";
    StandsAt(s, i, Paren(c) + sym, file);
    StandsAt(s, i, Paren(c), sym);
    assert s[p] == s[p..p+1][0] == sym[0];
    FileAttached(s, p, file, mode, e);
    assert Wrap(c, [Attach(file, mode)]) == Redir(c, file, mode) by { assert [Attach(file, mode)][..0] == []; }
  }

  lemma RedirParts(s: string, i: nat, c: Cmd, file: string, mode: Mode)
    requires Stands(s, i, Print(Redir(c, file, mode)))
    ensures Stands(s, i, Paren(c)) && Stands(s, i + 1, Print(c)) && Closed(s, i + 1 + |Print(c)|)
  {
    StandsAt(s, i, Paren(c), (if mode == Input then "<" else ">") + file);
    assert Paren(c) + ((if mode == Input then "<" else ">") + file) == Print(Redir(c, file, mode));
    ParenAt(s, i, c);
  }

  lemma ModeToken(s: string, p: nat, mode: Mode)
    requires p + 1 < |s| && s[p] == (if mode == Input then '<' else '>') && IsWordChar(s[p+1])
    ensures SkipSpace(s, p) == p && Peek(s, p, "<>") && GetToken(s, p).kind == s[p] && GetToken(s, p).next == p + 1
  {
  }

  lemma FileAttached(s: string, p: nat, file: string, mode: Mode, e: nat)
    requires ValidWord(file) && p < |s| && s[p] == (if mode == Input then '<' else '>') && Stands(s, p + 1, file)
    requires e == p + 1 + |file| && Closed(s, e)
    ensures SkipSpace(s, p) == p && ParseRedirs(s, p, []) == Ok([Attach(file, mode)], e)
  {
    hide GetToken, SkipSpace, Peek;
    WordToken(s, p + 1, file);
    ModeToken(s, p, mode);
    NothingFollows(s, e);
    assert [] + [Attach(file, mode)] == [Attach(file, mode)];
    assert ParseRedirs(s, e, [Attach(file, mode)]) == Ok([Attach(file, mode)], e);
  }

  /** Two parenthesised commands with an operator between them. */
  lemma TwoParens(s: string, i: nat, l: Cmd, op: string, r: Cmd)
    requires |op| == 1 && Stands(s, i, Paren(l) + op + Paren(r))
    ensures Stands(s, i, Paren(l)) && i + |Paren(l)| < |s| && s[i + |Paren(l)|] == op[0]
    ensures Stands(s, i + |Paren(l)| + 1, Paren(r))
  {
    StandsAt(s, i, Paren(l) + op, Paren(r));
    StandsAt(s, i, Paren(l), op);
    var p := i + |Paren(l)|;
    assert s[p] == s[p..p+1][0];
  }

  lemma PipeOk(s: string, i: nat, l: Cmd, r: Cmd, e: nat)
    requires i <= |s| && ParseExec(s, i).Ok? && ParseExec(s, i).value == l && ParseExec(s, i).pos < |s|
    requires s[ParseExec(s, i).pos] == '|'
    requires SkipSpace(s, ParseExec(s, i).pos + 1) == ParseExec(s, i).pos + 1
    requires ParsePipe(s, ParseExec(s, i).pos + 1) == Ok(r, e) && Closed(s, e)
    ensures ParseLine(s, i) == Ok(Pipe(l, r), e)
  {
    hide ParseExec;
    SymbolToken(s, ParseExec(s, i).pos);
    NothingFollows(s, e);
  }

  lemma ListOk(s: string, i: nat, l: Cmd, r: Cmd, e: nat)
    requires i <= |s| && ParseExec(s, i).Ok? && ParseExec(s, i).value == l && ParseExec(s, i).pos < |s|
    requires s[ParseExec(s, i).pos] == ';'
    requires SkipSpace(s, ParseExec(s, i).pos + 1) == ParseExec(s, i).pos + 1
    requires ParseLine(s, ParseExec(s, i).pos + 1) == Ok(r, e)
    ensures ParseLine(s, i) == Ok(List(l, r), e)
  {
    hide ParseExec;
    SymbolToken(s, ParseExec(s, i).pos);
    assert ParsePipe(s, i) == Ok(l, ParseExec(s, i).pos);
  }

  lemma BackOk(s: string, i: nat, c: Cmd, e: nat)
    requires i <= |s| && 1 <= e <= |s| && ParseExec(s, i) == Ok(c, e - 1) && s[e-1] == '&' && Closed(s, e)
    ensures ParseLine(s, i) == Ok(Back(c), e)
  {
    hide ParseExec;
    SymbolToken(s, e - 1);
    NothingFollows(s, e);
    assert ParsePipe(s, i) == Ok(c, e - 1);
    assert ParseBacks(s, e, Back(c)) == Ok(Back(c), e);
  }

  /** Every tree is read back from its canonical text, wherever that text stands. */
  lemma {:induction false} RoundTripAt(c: Cmd, s: string, i: nat)
    requires ValidCmd(c) && Stands(s, i, Print(c)) && Closed(s, i + |Print(c)|)
    ensures ParseLine(s, i) == Ok(c, i + |Print(c)|)
    decreases c, 1
  {
    hide ParseLine, ParsePipe, ParseExec, ParseBlock, ParseRedirs, ParseArgs, ParseBacks, GetToken, SkipSpace, Peek;
    var e := i + |Print(c)|;
    match c
    case Exec(argv) =>
      ExecOk(s, i, argv);
      LineOfExec(s, i, c, e);
    case Redir(d, file, mode) =>
      RoundTripRedir(d, file, mode, s, i);
      LineOfExec(s, i, c, e);
    case Pipe(l, r) => RoundTripTwo(c, l, "|", r, s, i); PipeOk(s, i, l, r, e);
    case List(l, r) => RoundTripTwo(c, l, ";", r, s, i); ListOk(s, i, l, r, e);
    case Back(d) => RoundTripBack(d, s, i);
  }

  lemma {:induction false} RoundTripBack(d: Cmd, s: string, i: nat)
    requires ValidCmd(Back(d)) && Stands(s, i, Print(Back(d))) && Closed(s, i + |Print(Back(d))|)
    ensures ParseLine(s, i) == Ok(Back(d), i + |Print(Back(d))|)
    decreases d, 3
  {
    hide ParseLine, ParsePipe, ParseExec;
    var e := i + |Print(Back(d))|;
    StandsAt(s, i, Paren(d), "&");
    assert s[e-1] == s[e-1..e][0];
    RoundTripParen(d, s, i, e - 1);
    BackOk(s, i, d, e);
  }

  lemma {:induction false} RoundTripRedir(d: Cmd, file: string, mode: Mode, s: string, i: nat)
    requires ValidCmd(Redir(d, file, mode)) && Stands(s, i, Print(Redir(d, file, mode)))
    requires Closed(s, i + |Print(Redir(d, file, mode))|)
    ensures ParseExec(s, i) == Ok(Redir(d, file, mode), i + |Print(Redir(d, file, mode))|)
    decreases d, 2
  {
    hide ParseLine, ParseExec;
    RedirParts(s, i, d, file, mode);
    RoundTripAt(d, s, i + 1);
    RedirOk(s, i, d, file, mode, i + |Print(Redir(d, file, mode))|);
  }

  lemma {:induction false} RoundTripTwo(c: Cmd, l: Cmd, op: string, r: Cmd, s: string, i: nat)
    requires ValidCmd(l) && ValidCmd(r) && l < c && r < c && (op == "|" || op == ";")
    requires Stands(s, i, Paren(l) + op + Paren(r)) && Closed(s, i + |Paren(l) + op + Paren(r)|)
    ensures var p, e := i + |Paren(l)|, i + |Paren(l) + op + Paren(r)|;
      && ParseExec(s, i) == Ok(l, p) && p < |s| && s[p] == op[0] && SkipSpace(s, p + 1) == p + 1
      && ParsePipe(s, p + 1) == Ok(r, e) && ParseLine(s, p + 1) == Ok(r, e)
    decreases c, 0
  {
    hide ParseLine, ParsePipe, ParseExec;
    var p, e := i + |Paren(l)|, i + |Paren(l) + op + Paren(r)|;
    TwoParens(s, i, l, op, r);
    RoundTripParen(l, s, i, p);
    RoundTripParen(r, s, p + 1, e);
    LineOfExec(s, p + 1, r, e);
    ParenStart(s, p + 1, r);
  }

  lemma ParenStart(s: string, i: nat, c: Cmd)
    requires Stands(s, i, Paren(c))
    ensures SkipSpace(s, i) == i
  {
    ParenAt(s, i, c);
  }

  lemma {:induction false} RoundTripParen(c: Cmd, s: string, i: nat, e: nat)
    requires ValidCmd(c) && Stands(s, i, Paren(c)) && e == i + |Paren(c)|
    requires e == |s| || (IsSymbol(s[e]) && s[e] != '<' && s[e] != '>')
    ensures ParseExec(s, i) == Ok(c, e)
    decreases c, 2
  {
    hide ParseLine, ParseExec;
    ParenAt(s, i, c);
    RoundTripAt(c, s, i + 1);
    BlockAlone(s, i, c, e);
  }

  lemma ExecOk(s: string, i: nat, argv: seq<string>)
    requires ValidCmd(Exec(argv)) && Stands(s, i, PrintArgs(argv)) && Closed(s, i + |PrintArgs(argv)|)
    ensures ParseExec(s, i) == Ok(Exec(argv), i + |PrintArgs(argv)|)
  {
    hide ParseArgs;
    ArgsStart(s, i, argv);
    ArgsOk(s, i, [], argv);
    assert [] + argv == argv;
    assert ParseRedirs(s, i, []) == Ok([], i);
  }

  /** The parser inverts printing on all trees it can produce. */
  lemma RoundTrip(c: Cmd)
    requires ValidCmd(c)
    ensures ParseCmd(Print(c)) == Ok(c, |Print(c)|)
  {
    var s := Print(c);
    assert s[0..0 + |s|] == s;
    RoundTripAt(c, s, 0);
  }

  // ----- every parse is a tree that can be printed -----

  ghost predicate ValidFiles(fs: seq<Attach>) {
    forall i :: 0 <= i < |fs| ==> ValidWord(fs[i].file)
  }

  lemma {:induction false} SkipWordChars(s: string, i: nat)
    requires i <= |s| && NUL !in s
    ensures forall k :: i <= k < SkipWord(s, i) ==> IsWordChar(s[k])
    decreases |s| - i
  {
    if i < |s| && !IsSpace(s[i]) && !IsSymbol(s[i]) { SkipWordChars(s, i + 1); }
  }

  lemma TokenWord(s: string, i: nat)
    requires i <= |s| && NUL !in s
    ensures GetToken(s, i).kind == 'a' ==> ValidWord(s[GetToken(s, i).q..GetToken(s, i).eq])
  {
    SkipWordChars(s, SkipSpace(s, i));
  }

  lemma {:induction false} WrapValid(c: Cmd, fs: seq<Attach>)
    requires ValidCmd(c) && ValidFiles(fs)
    ensures ValidCmd(Wrap(c, fs))
  {
    if fs != [] { WrapValid(c, fs[..|fs|-1]); }
  }

  lemma {:induction false} RedirsValid(s: string, i: nat, fs: seq<Attach>)
    requires i <= |s| && NUL !in s && ValidFiles(fs)
    ensures ParseRedirs(s, i, fs).Ok? ==> ValidFiles(ParseRedirs(s, i, fs).value)
    decreases |s| - i
  {
    if Peek(s, i, "<>") {
      var t := GetToken(s, i);
      var w := GetToken(s, t.next);
      if w.kind == 'a' {
        TokenWord(s, t.next);
        RedirsValid(s, w.next, fs + [Attach(s[w.q..w.eq], if t.kind == '<' then Input else Output)]);
      }
    }
  }

  lemma {:induction false} ArgsValid(s: string, i: nat, argv: seq<string>, fs: seq<Attach>)
    requires i <= |s| && NUL !in s && ValidFiles(fs) && ValidWords(argv) && |argv| < MAXARGS
    ensures ParseArgs(s, i, argv, fs).Ok? ==> ValidCmd(ParseArgs(s, i, argv, fs).value)
    decreases |s| - i
  {
    WrapValid(Exec(argv), fs);
    var t := GetToken(s, i);
    if !Peek(s, i, "|)&;") && t.kind == 'a' && |argv| + 1 < MAXARGS {
      TokenWord(s, i);
      RedirsValid(s, t.next, fs);
      var f := ParseRedirs(s, t.next, fs);
      if f.Ok? { ArgsValid(s, f.pos, argv + [s[t.q..t.eq]], f.value); }
    }
  }

  lemma {:induction false} ExecValid(s: string, i: nat)
    requires i <= |s| && NUL !in s
    ensures ParseExec(s, i).Ok? ==> ValidCmd(ParseExec(s, i).value)
    decreases |s| - i, 0
  {
    hide ParseArgs, ParseRedirs, SkipWord;
    if Peek(s, i, "(") {
      var open := GetToken(s, i);
      LineValid(s, open.next);
      var c := ParseLine(s, open.next);
      if c.Ok? && Peek(s, c.pos, ")") {
        RedirsValid(s, GetToken(s, c.pos).next, []);
        var f := ParseRedirs(s, GetToken(s, c.pos).next, []);
        if f.Ok? { WrapValid(c.value, f.value); }
      }
    } else {
      RedirsValid(s, i, []);
      var f := ParseRedirs(s, i, []);
      if f.Ok? { ArgsValid(s, f.pos, [], f.value); }
    }
  }

  lemma {:induction false} PipeValid(s: string, i: nat)
    requires i <= |s| && NUL !in s
    ensures ParsePipe(s, i).Ok? ==> ValidCmd(ParsePipe(s, i).value)
    decreases |s| - i, 1
  {
    hide ParseExec;
    ExecValid(s, i);
    var c := ParseExec(s, i);
    if c.Ok? && Peek(s, c.pos, "|") { PipeValid(s, GetToken(s, c.pos).next); }
  }

  lemma {:induction false} BacksValid(s: string, i: nat, c: Cmd)
    requires i <= |s| && ValidCmd(c)
    ensures ValidCmd(ParseBacks(s, i, c).value)
    decreases |s| - i
  {
    if Peek(s, i, "&") { BacksValid(s, GetToken(s, i).next, Back(c)); }
  }

  lemma {:induction false} LineValid(s: string, i: nat)
    requires i <= |s| && NUL !in s
    ensures ParseLine(s, i).Ok? ==> ValidCmd(ParseLine(s, i).value)
    decreases |s| - i, 2
  {
    hide ParsePipe, ParseBacks;
    PipeValid(s, i);
    var p := ParsePipe(s, i);
    if p.Ok? {
      BacksValid(s, p.pos, p.value);
      var c := ParseBacks(s, p.pos, p.value);
      if Peek(s, c.pos, ";") { LineValid(s, GetToken(s, c.pos).next); }
    }
  }

  /**
    Whatever line the parser accepts, the tree it yields has real words and fits the argument
    limit, and printing the tree and parsing again gives the same tree.
   */
  lemma ParseIsStable(s: string)
    requires NUL !in s && ParseCmd(s).Ok?
    ensures ValidCmd(ParseCmd(s).value)
    ensures ParseCmd(Print(ParseCmd(s).value)) == Ok(ParseCmd(s).value, |Print(ParseCmd(s).value)|)
  {
    LineValid(s, 0);
    RoundTrip(ParseCmd(s).value);
  }
}
