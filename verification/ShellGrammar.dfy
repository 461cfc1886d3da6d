/**
  The grammar of command lines and what they mean, and that the parser of sh.c accepts every text of
  the grammar and yields what it means.
 */
module ShellGrammar {
  import opened ShellSyntax
  import opened ShellPrint
  import opened ShellLexing

  // ----- the grammar -----

  datatype Arrow = In | Out | Append

  datatype File = File(arrow: Arrow, name: string)

  /** A simple command is a list of words and redirections in any order. */
  datatype Item = Arg(w: string) | To(file: File)

  datatype Simple = Items(items: seq<Item>) | Block(line: Line, files: seq<File>)

  datatype Pipeline = One(c: Simple) | Piped(c: Simple, rest: Pipeline)

  /** A pipeline with any number of & behind it, and after ; another line. */
  datatype Line = Last(p: Pipeline, backs: nat) | Then(p: Pipeline, backs: nat, rest: Line)

  // ----- what is written -----

  function ArrowTok(a: Arrow): Tok {
    match a
    case In => Sym('<')
    case Out => Sym('>')
    case Append => More
  }

  function FileToks(files: seq<File>): seq<Tok> {
    if files == [] then [] else [ArrowTok(files[0].arrow), Word(files[0].name)] + FileToks(files[1..])
  }

  function ItemToks(items: seq<Item>): seq<Tok> {
    if items == [] then []
    else (match items[0] case Arg(w) => [Word(w)] case To(f) => [ArrowTok(f.arrow), Word(f.name)]) + ItemToks(items[1..])
  }

  function SimpleToks(c: Simple): seq<Tok>
    decreases c
  {
    match c
    case Items(items) => ItemToks(items)
    case Block(line, files) => [Sym('(')] + LineToks(line) + [Sym(')')] + FileToks(files)
  }

  function PipeToks(p: Pipeline): seq<Tok>
    decreases p
  {
    match p
    case One(c) => SimpleToks(c)
    case Piped(c, rest) => SimpleToks(c) + [Sym('|')] + PipeToks(rest)
  }

  function Ands(n: nat): seq<Tok> {
    if n == 0 then [] else [Sym('&')] + Ands(n - 1)
  }

  function LineToks(l: Line): seq<Tok>
    decreases l
  {
    match l
    case Last(p, n) => PipeToks(p) + Ands(n)
    case Then(p, n, rest) => PipeToks(p) + Ands(n) + [Sym(';')] + LineToks(rest)
  }

  // ----- what it means -----

  function ModeOf(a: Arrow): Mode {
    if a == In then Input else Output
  }

  /** cmd with the files attached one after the other. */
  function Attached(cmd: Cmd, files: seq<File>): Cmd
    decreases |files|
  {
    if files == [] then cmd else Attached(Redir(cmd, files[0].name, ModeOf(files[0].arrow)), files[1..])
  }

  function WordsOf(items: seq<Item>): seq<string> {
    if items == [] then [] else (if items[0].Arg? then [items[0].w] else []) + WordsOf(items[1..])
  }

  function FilesOf(items: seq<Item>): seq<File> {
    if items == [] then [] else (if items[0].To? then [items[0].file] else []) + FilesOf(items[1..])
  }

  function SimpleCmd(c: Simple): Cmd
    decreases c
  {
    match c
    case Items(items) => Attached(Exec(WordsOf(items)), FilesOf(items))
    case Block(line, files) => Attached(LineCmd(line), files)
  }

  function PipeCmd(p: Pipeline): Cmd
    decreases p
  {
    match p
    case One(c) => SimpleCmd(c)
    case Piped(c, rest) => Pipe(SimpleCmd(c), PipeCmd(rest))
  }

  function Backed(c: Cmd, n: nat): Cmd
    decreases n
  {
    if n == 0 then c else Backed(Back(c), n - 1)
  }

  function LineCmd(l: Line): Cmd
    decreases l
  {
    match l
    case Last(p, n) => Backed(PipeCmd(p), n)
    case Then(p, n, rest) => List(Backed(PipeCmd(p), n), LineCmd(rest))
  }

  // ----- the limit on arguments -----

  predicate SimpleFits(c: Simple)
    decreases c
  {
    match c
    case Items(items) => |WordsOf(items)| < MAXARGS
    case Block(line, files) => LineFits(line)
  }

  predicate PipeFits(p: Pipeline)
    decreases p
  {
    match p
    case One(c) => SimpleFits(c)
    case Piped(c, rest) => SimpleFits(c) && PipeFits(rest)
  }

  predicate LineFits(l: Line)
    decreases l
  {
    match l
    case Last(p, n) => PipeFits(p)
    case Then(p, n, rest) => PipeFits(p) && LineFits(rest)
  }

  // ----- attaching -----

  function AttachOf(files: seq<File>): (fs: seq<Attach>)
    ensures |fs| == |files|
  {
    seq(|files|, i requires 0 <= i < |files| => Attach(files[i].name, ModeOf(files[i].arrow)))
  }

  lemma {:induction false} WrapMore(cmd: Cmd, f: Attach, fs: seq<Attach>)
    ensures Wrap(cmd, [f] + fs) == Wrap(Redir(cmd, f.file, f.mode), fs)
    decreases |fs|
  {
    if fs == [] {
      assert [f] + fs == [f] && [f][..0] == [];
    } else {
      assert ([f] + fs)[..|fs|] == [f] + fs[..|fs|-1];
      WrapMore(cmd, f, fs[..|fs|-1]);
    }
  }

  /** The parser's way of attaching files, the last one outermost, is attaching them one after the other. */
  lemma {:induction false} WrapAttached(cmd: Cmd, files: seq<File>)
    ensures Wrap(cmd, AttachOf(files)) == Attached(cmd, files)
    decreases |files|
  {
    if files != [] {
      var f := AttachOf(files)[0];
      assert AttachOf(files) == [f] + AttachOf(files[1..]);
      WrapMore(cmd, f, AttachOf(files[1..]));
      WrapAttached(Redir(cmd, f.file, f.mode), files[1..]);
    }
  }

  // ----- what the parser sees -----

  /** The character that peek sees, NUL at the end. */
  function First(ts: seq<Tok>): char {
    if ts == [] || Text(ts[0]) == [] then NUL else Text(ts[0])[0]
  }

  lemma Sees(s: string, i: nat, ts: seq<Tok>)
    requires Reads(s, i, ts)
    ensures i <= |s| && At(s, SkipSpace(s, i)) == First(ts) && Reads(s, SkipSpace(s, i), ts)
    ensures ts == [] ==> GetToken(s, i).kind == NUL && Reads(s, GetToken(s, i).next, [])
    ensures ts != [] ==> TokOk(ts[0]) && GetToken(s, i).kind == Kind(ts[0]) && Reads(s, GetToken(s, i).next, ts[1..])
    ensures ts != [] && ts[0].Word? ==> s[GetToken(s, i).q..GetToken(s, i).eq] == ts[0].w && IsWordChar(First(ts))
  {
    hide Reads, GetToken, SkipSpace;
    if ts == [] {
      ReadsEnd(s, i);
    } else {
      ReadsNext(s, i, ts);
      TextStart(ts[0]);
    }
  }

  lemma FileNext(s: string, i: nat, fs: seq<Attach>, f: File, more: seq<Tok>) returns (j: nat)
    requires Reads(s, i, [ArrowTok(f.arrow), Word(f.name)] + more)
    ensures i <= |s| && j <= |s| && Reads(s, j, more)
    ensures ParseRedirs(s, i, fs) == ParseRedirs(s, j, fs + [Attach(f.name, ModeOf(f.arrow))])
  {
    hide Reads, GetToken, SkipSpace;
    var ts := [ArrowTok(f.arrow), Word(f.name)] + more;
    Sees(s, i, ts);
    var t := GetToken(s, i);
    assert ts[1..] == [Word(f.name)] + more && ts[1..][1..] == more;
    Sees(s, t.next, ts[1..]);
    j := GetToken(s, t.next).next;
  }

  lemma FilesEnd(s: string, i: nat, fs: seq<Attach>, rest: seq<Tok>)
    requires Reads(s, i, rest) && First(rest) != '<' && First(rest) != '>'
    ensures i <= |s| && ParseRedirs(s, i, fs) == Ok(fs, SkipSpace(s, i)) && Reads(s, SkipSpace(s, i), rest)
  {
    hide Reads, GetToken, SkipSpace;
    Sees(s, i, rest);
  }

  /** Redirections are read to the last one. */
  lemma {:induction false} FilesParse(s: string, i: nat, fs: seq<Attach>, files: seq<File>, rest: seq<Tok>)
    requires Reads(s, i, FileToks(files) + rest) && First(rest) != '<' && First(rest) != '>'
    ensures i <= |s|
    ensures var r := ParseRedirs(s, i, fs); r.Ok? && r.value == fs + AttachOf(files) && Reads(s, r.pos, rest)
    decreases |files|
  {
    hide Reads, ParseRedirs, SkipSpace, First;
    if files == [] {
      assert FileToks(files) + rest == rest && fs + AttachOf(files) == fs;
      FilesEnd(s, i, fs, rest);
    } else {
      var f := files[0];
      assert FileToks(files) + rest == [ArrowTok(f.arrow), Word(f.name)] + (FileToks(files[1..]) + rest);
      var j := FileNext(s, i, fs, f, FileToks(files[1..]) + rest);
      var a := Attach(f.name, ModeOf(f.arrow));
      FilesParse(s, j, fs + [a], files[1..], rest);
      assert fs + [a] + AttachOf(files[1..]) == fs + AttachOf(files);
    }
  }

  // ----- simple commands -----

  /** The redirections in front, and what is left, which begins with a word. */
  lemma {:induction false} SplitItems(items: seq<Item>) returns (files: seq<File>, tail: seq<Item>)
    ensures ItemToks(items) == FileToks(files) + ItemToks(tail) && (tail == [] || tail[0].Arg?) && |tail| <= |items|
    ensures WordsOf(items) == WordsOf(tail) && FilesOf(items) == files + FilesOf(tail)
  {
    if items == [] || items[0].Arg? {
      files, tail := [], items;
    } else {
      files, tail := SplitItems(items[1..]);
      files := [items[0].file] + files;
      assert files[1..] + FilesOf(tail) == FilesOf(items[1..]);
    }
  }

  /** What ends a simple command. */
  predicate EndsSimple(c: char) {
    c == NUL || c == '|' || c == ')' || c == '&' || c == ';'
  }

  lemma ArgNext(s: string, i: nat, argv: seq<string>, fs: seq<Attach>, w: string, more: seq<Tok>) returns (j: nat)
    requires Reads(s, i, [Word(w)] + more) && |argv| + 1 < MAXARGS
    ensures i <= |s| && j <= |s| && Reads(s, j, more)
    ensures var f := ParseRedirs(s, j, fs);
      f.Ok? ==> ParseArgs(s, i, argv, fs) == ParseArgs(s, f.pos, argv + [w], f.value)
  {
    hide Reads, GetToken, SkipSpace, ParseRedirs;
    var ts := [Word(w)] + more;
    Sees(s, i, ts);
    assert ts[1..] == more;
    j := GetToken(s, i).next;
  }

  lemma ArgsFinish(s: string, i: nat, argv: seq<string>, fs: seq<Attach>, rest: seq<Tok>)
    requires Reads(s, i, rest) && EndsSimple(First(rest)) && (rest != [] ==> First(rest) != NUL)
    ensures i <= |s|
    ensures var r := ParseArgs(s, i, argv, fs); r.Ok? && r.value == Wrap(Exec(argv), fs) && Reads(s, r.pos, rest)
  {
    hide Reads, GetToken, SkipSpace, ParseRedirs, Wrap;
    Sees(s, i, rest);
  }

  lemma {:induction false} ArgsParse(s: string, i: nat, argv: seq<string>, fs: seq<Attach>, items: seq<Item>, rest: seq<Tok>)
    requires Reads(s, i, ItemToks(items) + rest) && EndsSimple(First(rest)) && (rest != [] ==> First(rest) != NUL)
    requires (items == [] || items[0].Arg?) && |argv| + |WordsOf(items)| < MAXARGS
    ensures i <= |s|
    ensures var r := ParseArgs(s, i, argv, fs);
      && r.Ok? && r.value == Wrap(Exec(argv + WordsOf(items)), fs + AttachOf(FilesOf(items))) && Reads(s, r.pos, rest)
    decreases |items|
  {
    hide Reads, ParseArgs, ParseRedirs, Wrap, FileToks, AttachOf, First;
    if items == [] {
      NoItems(argv, fs, rest);
      ArgsFinish(s, i, argv, fs, rest);
    } else {
      var w := items[0].w;
      var files, tail := SplitItems(items[1..]);
      HeadItem(items, files, tail, rest, argv, fs);
      hide ItemToks, WordsOf, FilesOf;
      var more := FileToks(files) + (ItemToks(tail) + rest);
      var j := ArgNext(s, i, argv, fs, w, more);
      TailFirst(s, j, files, tail, rest);
      FilesParse(s, j, fs, files, ItemToks(tail) + rest);
      var f := ParseRedirs(s, j, fs);
      ArgsParse(s, f.pos, argv + [w], f.value, tail, rest);
    }
  }

  lemma NoItems(argv: seq<string>, fs: seq<Attach>, rest: seq<Tok>)
    ensures ItemToks([]) + rest == rest && argv + WordsOf([]) == argv && fs + AttachOf(FilesOf([])) == fs
  {
  }

  /** An item in front, the redirections behind it, and what is left. */
  lemma HeadItem(items: seq<Item>, files: seq<File>, tail: seq<Item>, rest: seq<Tok>, argv: seq<string>, fs: seq<Attach>)
    requires items != [] && items[0].Arg? && ItemToks(items[1..]) == FileToks(files) + ItemToks(tail)
    requires WordsOf(items[1..]) == WordsOf(tail) && FilesOf(items[1..]) == files + FilesOf(tail)
    ensures ItemToks(items) + rest == [Word(items[0].w)] + (FileToks(files) + (ItemToks(tail) + rest))
    ensures argv + [items[0].w] + WordsOf(tail) == argv + WordsOf(items) && |WordsOf(items)| == 1 + |WordsOf(tail)|
    ensures fs + AttachOf(files) + AttachOf(FilesOf(tail)) == fs + AttachOf(FilesOf(items))
  {
    var w := items[0].w;
    assert ItemToks(items) == [Word(w)] + ItemToks(items[1..]);
    assert WordsOf(items) == [w] + WordsOf(tail);
    assert FilesOf(items) == [] + FilesOf(items[1..]) == files + FilesOf(tail);
    hide ItemToks, WordsOf, FilesOf, FileToks, AttachOf;
    Joins([Word(w)], FileToks(files), ItemToks(tail), rest);
    Join(argv, [w], WordsOf(tail));
    AttachJoin(files, FilesOf(tail));
    Join(fs, AttachOf(files), AttachOf(FilesOf(tail)));
  }

  lemma Nothing<T>(a: seq<T>)
    ensures [] + a == a
  {
  }

  lemma Join<T>(a: seq<T>, b: seq<T>, c: seq<T>)
    ensures a + b + c == a + (b + c)
  {
  }

  lemma Joins<T>(a: seq<T>, b: seq<T>, c: seq<T>, d: seq<T>)
    ensures a + (b + c) + d == a + (b + (c + d))
  {
  }

  lemma AttachJoin(a: seq<File>, b: seq<File>)
    ensures AttachOf(a + b) == AttachOf(a) + AttachOf(b)
  {
  }

  /** No redirection follows. */
  lemma TailFirst(s: string, j: nat, files: seq<File>, tail: seq<Item>, rest: seq<Tok>)
    requires Reads(s, j, FileToks(files) + (ItemToks(tail) + rest)) && (tail == [] || tail[0].Arg?)
    requires EndsSimple(First(rest))
    ensures First(ItemToks(tail) + rest) != '<' && First(ItemToks(tail) + rest) != '>'
    ensures tail != [] ==> First(ItemToks(tail) + rest) != '('
  {
    var ts := ItemToks(tail) + rest;
    if tail == [] {
      assert ts == rest;
    } else {
      assert ts[0] == Word(tail[0].w);
      ReadsOk(s, j, FileToks(files), ts);
      TextStart(ts[0]);
    }
  }

  lemma ReadsOk(s: string, i: nat, a: seq<Tok>, b: seq<Tok>)
    requires Reads(s, i, a + b) && b != []
    ensures TokOk(b[0])
  {
    var gaps :| Fits(s, i, a + b, gaps);
    assert (a + b)[|a|] == b[0];
  }

  // ----- from texts of the grammar to trees -----

  /** What may follow: the end, or one of the symbols. */
  ghost predicate Before(rest: seq<Tok>, symbols: string) {
    rest == [] || (First(rest) != NUL && First(rest) in symbols)
  }

  lemma ItemsParse(s: string, i: nat, items: seq<Item>, rest: seq<Tok>)
    requires Reads(s, i, ItemToks(items) + rest) && Before(rest, "|)&;") && |WordsOf(items)| < MAXARGS
    ensures i <= |s|
    ensures var r := ParseExec(s, i); r.Ok? && r.value == SimpleCmd(Items(items)) && Reads(s, r.pos, rest)
  {
    var files, tail := SplitItems(items);
    Join(FileToks(files), ItemToks(tail), rest);
    TailFirst(s, i, files, tail, rest);
    NotBlock(s, i, files, tail, rest);
    hide Reads, ParseArgs, ParseRedirs, Wrap, ItemToks, FileToks, WordsOf, FilesOf, First, Peek, Attached, AttachOf;
    FilesParse(s, i, [], files, ItemToks(tail) + rest);
    var f := ParseRedirs(s, i, []);
    ArgsParse(s, f.pos, [], f.value, tail, rest);
    Nothing(AttachOf(files));
    Nothing(WordsOf(tail));
    AttachJoin(files, FilesOf(tail));
    WrapAttached(Exec(WordsOf(items)), FilesOf(items));
  }

  /** A simple command does not begin with a parenthesis. */
  lemma NotBlock(s: string, i: nat, files: seq<File>, tail: seq<Item>, rest: seq<Tok>)
    requires Reads(s, i, FileToks(files) + (ItemToks(tail) + rest)) && Before(rest, "|)&;")
    requires tail != [] ==> First(ItemToks(tail) + rest) != '('
    ensures i <= |s| && !Peek(s, i, "(")
  {
    var ts := FileToks(files) + (ItemToks(tail) + rest);
    Sees(s, i, ts);
    hide Reads, SkipSpace;
    if files == [] {
      assert ts == ItemToks(tail) + rest;
      if tail == [] { assert ts == rest; }
    } else {
      assert ts[0] == ArrowTok(files[0].arrow);
    }
  }

  lemma {:induction false} SimpleParses(c: Simple, s: string, i: nat, rest: seq<Tok>)
    requires SimpleFits(c) && Reads(s, i, SimpleToks(c) + rest) && Before(rest, "|)&;")
    ensures i <= |s|
    ensures var r := ParseExec(s, i); r.Ok? && r.value == SimpleCmd(c) && Reads(s, r.pos, rest)
    decreases c
  {
    match c
    case Items(items) => ItemsParse(s, i, items, rest);
    case Block(line, files) =>
      hide Reads, ParseExec, ParseLine, ParseRedirs, Wrap, LineToks, FileToks;
      var inner := [Sym(')')] + (FileToks(files) + rest);
      BlockText([Sym('(')], LineToks(line), [Sym(')')], FileToks(files), rest);
      var j := BlockOpens(s, i, LineToks(line) + inner);
      LineParses(line, s, j, inner);
      BlockCloses(s, i, j, line, files, rest);
  }

  lemma BlockText(a: seq<Tok>, b: seq<Tok>, c: seq<Tok>, d: seq<Tok>, e: seq<Tok>)
    ensures a + b + c + d + e == a + (b + (c + (d + e)))
  {
  }

  lemma BlockOpens(s: string, i: nat, more: seq<Tok>) returns (j: nat)
    requires Reads(s, i, [Sym('(')] + more)
    ensures i <= |s| && Peek(s, i, "(") && j == GetToken(s, i).next && Reads(s, j, more)
  {
    hide Reads, SkipSpace, GetToken;
    Sees(s, i, [Sym('(')] + more);
    assert ([Sym('(')] + more)[1..] == more;
    j := GetToken(s, i).next;
  }

  lemma BlockCloses(s: string, i: nat, j: nat, line: Line, files: seq<File>, rest: seq<Tok>)
    requires i <= |s| && Peek(s, i, "(") && j == GetToken(s, i).next && Before(rest, "|)&;")
    requires var r := ParseLine(s, j);
      r.Ok? && r.value == LineCmd(line) && Reads(s, r.pos, [Sym(')')] + (FileToks(files) + rest))
    ensures var r := ParseExec(s, i); r.Ok? && r.value == Attached(LineCmd(line), files) && Reads(s, r.pos, rest)
  {
    hide Reads, SkipSpace, GetToken, ParseLine, ParseRedirs, Wrap, LineCmd, FileToks;
    var p, ts := ParseLine(s, j).pos, [Sym(')')] + (FileToks(files) + rest);
    Sees(s, p, ts);
    assert ts[1..] == FileToks(files) + rest;
    FilesParse(s, GetToken(s, p).next, [], files, rest);
    assert [] + AttachOf(files) == AttachOf(files);
    WrapAttached(LineCmd(line), files);
  }

  lemma {:induction false} PipeParses(p: Pipeline, s: string, i: nat, rest: seq<Tok>)
    requires PipeFits(p) && Reads(s, i, PipeToks(p) + rest) && Before(rest, ")&;")
    ensures i <= |s|
    ensures var r := ParsePipe(s, i); r.Ok? && r.value == PipeCmd(p) && Reads(s, r.pos, rest)
    decreases p, 0
  {
    hide Reads, ParseExec, GetToken, SkipSpace;
    match p
    case One(c) =>
      SimpleParses(c, s, i, rest);
      Sees(s, ParseExec(s, i).pos, rest);
    case Piped(c, q) =>
      var more := [Sym('|')] + (PipeToks(q) + rest);
      assert PipeToks(p) + rest == SimpleToks(c) + more;
      SimpleParses(c, s, i, more);
      var e := ParseExec(s, i).pos;
      Sees(s, e, more);
      assert more[1..] == PipeToks(q) + rest;
      PipeParses(q, s, GetToken(s, e).next, rest);
  }

  lemma {:induction false} AndsParse(n: nat, s: string, i: nat, c: Cmd, rest: seq<Tok>)
    requires Reads(s, i, Ands(n) + rest) && Before(rest, ");")
    ensures i <= |s|
    ensures var r := ParseBacks(s, i, c); r.value == Backed(c, n) && Reads(s, r.pos, rest)
    decreases n
  {
    hide Reads, GetToken, SkipSpace;
    var ts := Ands(n) + rest;
    Sees(s, i, ts);
    if n == 0 {
      assert ts == rest;
    } else {
      assert ts[1..] == Ands(n - 1) + rest;
      AndsParse(n - 1, s, GetToken(s, i).next, Back(c), rest);
    }
  }

  lemma {:induction false} LineParses(l: Line, s: string, i: nat, rest: seq<Tok>)
    requires LineFits(l) && Reads(s, i, LineToks(l) + rest) && Before(rest, ")")
    ensures i <= |s|
    ensures var r := ParseLine(s, i); r.Ok? && r.value == LineCmd(l) && Reads(s, r.pos, rest)
    decreases l
  {
    hide Reads, ParsePipe, ParseBacks, GetToken, SkipSpace;
    match l
    case Last(p, n) =>
      FrontParses(p, n, s, i, rest);
      Sees(s, ParseBacks(s, ParsePipe(s, i).pos, PipeCmd(p)).pos, rest);
    case Then(p, n, m) =>
      var more := [Sym(';')] + (LineToks(m) + rest);
      assert LineToks(l) + rest == PipeToks(p) + Ands(n) + more;
      FrontParses(p, n, s, i, more);
      var e := ParseBacks(s, ParsePipe(s, i).pos, PipeCmd(p)).pos;
      Sees(s, e, more);
      assert more[1..] == LineToks(m) + rest;
      LineParses(m, s, GetToken(s, e).next, rest);
  }

  /** A pipeline and the ampersands behind it. */
  lemma {:induction false} FrontParses(p: Pipeline, n: nat, s: string, i: nat, rest: seq<Tok>)
    requires PipeFits(p) && Reads(s, i, PipeToks(p) + Ands(n) + rest) && Before(rest, ");")
    ensures i <= |s|
    ensures var r := ParsePipe(s, i);
      && r.Ok? && r.value == PipeCmd(p)
      && var b := ParseBacks(s, r.pos, PipeCmd(p)); b.value == Backed(PipeCmd(p), n) && Reads(s, b.pos, rest)
    decreases p, 1
  {
    hide Reads, ParsePipe, ParseBacks;
    Join(PipeToks(p), Ands(n), rest);
    assert Before(Ands(n) + rest, ")&;") by { if n == 0 { assert Ands(n) + rest == rest; } }
    PipeParses(p, s, i, Ands(n) + rest);
    AndsParse(n, s, ParsePipe(s, i).pos, PipeCmd(p), rest);
  }

  /** Every text of a line that keeps to the limit on arguments is accepted, and yields what the line means. */
  lemma Accepts(l: Line, s: string)
    requires LineFits(l) && Reads(s, 0, LineToks(l))
    ensures ParseCmd(s).Ok? && ParseCmd(s).value == LineCmd(l)
  {
    hide Reads, ParseLine;
    assert LineToks(l) + [] == LineToks(l);
    LineParses(l, s, 0, []);
    ReadsEnd(s, ParseLine(s, 0).pos);
  }
}
