/** The other direction: whatever line the parser accepts is a text of the grammar, and it has its meaning. */
module ShellLanguage {
  import opened ShellSyntax
  import opened ShellPrint
  import opened ShellLexing
  import opened ShellGrammar

  // ----- from tokens that were accepted to the grammar -----

  /** A token that peek takes for a redirection is one of the arrows. */
  lemma IsArrow(t: Tok) returns (a: Arrow)
    requires TokOk(t) && Text(t) != [] && (Text(t)[0] == '<' || Text(t)[0] == '>')
    ensures t == ArrowTok(a)
  {
    TextStart(t);
    a := if t == Sym('<') then In else if t == Sym('>') then Out else Append;
  }

  lemma IsWord(t: Tok)
    requires TokOk(t) && Kind(t) == 'a'
    ensures t.Word?
  {
  }

  lemma {:induction false} FilesSound(s: string, i: nat, fs: seq<Attach>, ts: seq<Tok>)
    returns (files: seq<File>, rest: seq<Tok>)
    requires Reads(s, i, ts) && i <= |s| && ParseRedirs(s, i, fs).Ok?
    ensures ts == FileToks(files) + rest && ParseRedirs(s, i, fs).value == fs + AttachOf(files)
    ensures Reads(s, ParseRedirs(s, i, fs).pos, rest)
    decreases |s| - i
  {
    hide Reads, SkipSpace;
    Sees(s, i, ts);
    if !Peek(s, i, "<>") {
      files, rest := [], ts;
      assert fs + AttachOf([]) == fs;
    } else {
      var t := GetToken(s, i);
      var a := IsArrow(ts[0]);
      Sees(s, t.next, ts[1..]);
      var w := GetToken(s, t.next);
      assert ts[1..] != [];
      IsWord(ts[1]);
      var f := File(a, ts[1].w);
      var more;
      more, rest := FilesSound(s, w.next, fs + [Attach(f.name, ModeOf(a))], ts[2..]);
      files := [f] + more;
      OneFile(fs, f, more, ts, rest);
    }
  }

  lemma OneFile(fs: seq<Attach>, f: File, more: seq<File>, ts: seq<Tok>, rest: seq<Tok>)
    requires |ts| >= 2 && ts[0] == ArrowTok(f.arrow) && ts[1] == Word(f.name) && ts[2..] == FileToks(more) + rest
    ensures ts == FileToks([f] + more) + rest
    ensures fs + [Attach(f.name, ModeOf(f.arrow))] + AttachOf(more) == fs + AttachOf([f] + more)
  {
    assert ([f] + more)[1..] == more;
    assert ts == [ts[0], ts[1]] + ts[2..];
    Join([ts[0], ts[1]], FileToks(more), rest);
    assert AttachOf([f]) == [Attach(f.name, ModeOf(f.arrow))];
    AttachJoin([f], more);
    Join(fs, AttachOf([f]), AttachOf(more));
  }

  /** Redirections as items. */
  function ToItems(files: seq<File>): (items: seq<Item>)
    ensures |items| == |files|
  {
    seq(|files|, i requires 0 <= i < |files| => To(files[i]))
  }

  lemma {:induction false} ToItemsMeans(files: seq<File>, items: seq<Item>)
    ensures ItemToks(ToItems(files) + items) == FileToks(files) + ItemToks(items)
    ensures WordsOf(ToItems(files) + items) == WordsOf(items) && FilesOf(ToItems(files) + items) == files + FilesOf(items)
    decreases |files|
  {
    var all := ToItems(files) + items;
    if files == [] {
      assert all == items;
    } else {
      assert all[0] == To(files[0]) && all[1..] == ToItems(files[1..]) + items;
      ToItemsMeans(files[1..], items);
      Join([ArrowTok(files[0].arrow), Word(files[0].name)], FileToks(files[1..]), ItemToks(items));
      Nothing(WordsOf(items));
      Join([files[0]], files[1..], FilesOf(items));
      assert [files[0]] + files[1..] == files;
    }
  }

  /** A word, the redirections behind it, and more items. */
  lemma ArgItems(w: string, files: seq<File>, tail: seq<Item>) returns (items: seq<Item>)
    ensures items != [] && items[0] == Arg(w) && ItemToks(items[1..]) == FileToks(files) + ItemToks(tail)
    ensures WordsOf(items[1..]) == WordsOf(tail) && FilesOf(items[1..]) == files + FilesOf(tail)
  {
    items := [Arg(w)] + (ToItems(files) + tail);
    assert items[1..] == ToItems(files) + tail;
    ToItemsMeans(files, tail);
  }

  lemma {:induction false} ArgsSound(s: string, i: nat, argv: seq<string>, fs: seq<Attach>, ts: seq<Tok>)
    returns (items: seq<Item>, rest: seq<Tok>)
    requires Reads(s, i, ts) && i <= |s| && |argv| < MAXARGS && ParseArgs(s, i, argv, fs).Ok?
    ensures ts == ItemToks(items) + rest && |argv| + |WordsOf(items)| < MAXARGS
    ensures ParseArgs(s, i, argv, fs).value == Wrap(Exec(argv + WordsOf(items)), fs + AttachOf(FilesOf(items)))
    ensures Reads(s, ParseArgs(s, i, argv, fs).pos, rest)
    decreases |s| - i
  {
    hide Reads, SkipSpace, Wrap, ParseRedirs, FileToks, AttachOf, SkipWord;
    Sees(s, i, ts);
    if Peek(s, i, "|)&;") || GetToken(s, i).kind == NUL {
      items, rest := [], ts;
      NoItems(argv, fs, rest);
      if ts != [] { TextStart(ts[0]); }
    } else {
      IsWord(ts[0]);
      var w, t := ts[0].w, GetToken(s, i);
      var f := ParseRedirs(s, t.next, fs);
      var files, mid := FilesSound(s, t.next, fs, ts[1..]);
      var tail;
      tail, rest := ArgsSound(s, f.pos, argv + [w], f.value, mid);
      items := ArgItems(w, files, tail);
      HeadItem(items, files, tail, rest, argv, fs);
      assert ts == [Word(w)] + ts[1..];
    }
  }

  // ----- simple commands, pipelines and lines -----

  lemma IsSym(ts: seq<Tok>, c: char)
    requires ts != [] && TokOk(ts[0]) && First(ts) == c && c in "(|&;)"
    ensures ts == [Sym(c)] + ts[1..]
  {
    TextStart(ts[0]);
  }

  /** Reading a symbol moves the cursor. */
  lemma Advances(s: string, i: nat, toks: string)
    requires i <= |s| && Peek(s, i, toks)
    ensures i < GetToken(s, i).next <= |s|
  {
  }

  lemma ItemsSound(s: string, i: nat, ts: seq<Tok>) returns (items: seq<Item>, rest: seq<Tok>)
    requires Reads(s, i, ts) && i <= |s| && !Peek(s, i, "(") && ParseExec(s, i).Ok?
    ensures ts == ItemToks(items) + rest && |WordsOf(items)| < MAXARGS
    ensures ParseExec(s, i).value == SimpleCmd(Items(items)) && Reads(s, ParseExec(s, i).pos, rest)
  {
    hide Reads, ParseRedirs, ParseArgs, Wrap, Peek, FileToks, ItemToks, WordsOf, FilesOf, AttachOf, Attached;
    var f := ParseRedirs(s, i, []);
    var files, mid := FilesSound(s, i, [], ts);
    var tail;
    tail, rest := ArgsSound(s, f.pos, [], f.value, mid);
    items := ToItems(files) + tail;
    ToItemsMeans(files, tail);
    Join(FileToks(files), ItemToks(tail), rest);
    Nothing(AttachOf(files));
    Nothing(WordsOf(tail));
    AttachJoin(files, FilesOf(tail));
    WrapAttached(Exec(WordsOf(items)), FilesOf(items));
  }

  lemma {:induction false} ExecSound(s: string, i: nat, ts: seq<Tok>) returns (c: Simple, rest: seq<Tok>)
    requires Reads(s, i, ts) && i <= |s| && ParseExec(s, i).Ok?
    ensures SimpleFits(c) && ts == SimpleToks(c) + rest
    ensures ParseExec(s, i).value == SimpleCmd(c) && Reads(s, ParseExec(s, i).pos, rest)
    decreases |s| - i, 1
  {
    if !Peek(s, i, "(") {
      hide ParseExec;
      var items;
      items, rest := ItemsSound(s, i, ts);
      c := Items(items);
    } else {
      hide Reads, SkipSpace, GetToken, ParseLine, ParseRedirs, Wrap, LineToks, FileToks, LineFits, LineCmd, Attached;
      Sees(s, i, ts);
      IsSym(ts, '(');
      Advances(s, i, "(");
      var j := GetToken(s, i).next;
      var line, mid := LineSound(s, j, ts[1..]);
      var files;
      files, rest := BlockSound(s, j, mid);
      c := Block(line, files);
      BlockText([Sym('(')], LineToks(line), [Sym(')')], FileToks(files), rest);
      Join([Sym(')')], FileToks(files), rest);
      WrapAttached(LineCmd(line), files);
    }
  }

  /** The parenthesis at the end of a block and the redirections behind it. */
  lemma BlockSound(s: string, j: nat, mid: seq<Tok>) returns (files: seq<File>, rest: seq<Tok>)
    requires j <= |s| && ParseLine(s, j).Ok? && Reads(s, ParseLine(s, j).pos, mid) && Peek(s, ParseLine(s, j).pos, ")")
    requires ParseRedirs(s, GetToken(s, ParseLine(s, j).pos).next, []).Ok?
    ensures var r := ParseRedirs(s, GetToken(s, ParseLine(s, j).pos).next, []);
      mid == [Sym(')')] + FileToks(files) + rest && r.value == AttachOf(files) && Reads(s, r.pos, rest)
  {
    hide Reads, SkipSpace, GetToken, ParseLine, ParseRedirs, FileToks;
    var p := ParseLine(s, j).pos;
    Sees(s, p, mid);
    IsSym(mid, ')');
    files, rest := FilesSound(s, GetToken(s, p).next, [], mid[1..]);
    Nothing(AttachOf(files));
    Join([Sym(')')], FileToks(files), rest);
  }

  lemma {:induction false} PipeSound(s: string, i: nat, ts: seq<Tok>) returns (p: Pipeline, rest: seq<Tok>)
    requires Reads(s, i, ts) && i <= |s| && ParsePipe(s, i).Ok?
    ensures PipeFits(p) && ts == PipeToks(p) + rest
    ensures ParsePipe(s, i).value == PipeCmd(p) && Reads(s, ParsePipe(s, i).pos, rest)
    decreases |s| - i, 2
  {
    hide Reads, SkipSpace, GetToken, ParseExec, SimpleToks, SimpleFits, SimpleCmd;
    var c, mid := ExecSound(s, i, ts);
    var e := ParseExec(s, i).pos;
    Sees(s, e, mid);
    if !Peek(s, e, "|") {
      p, rest := One(c), mid;
    } else {
      IsSym(mid, '|');
      Advances(s, e, "|");
      var q;
      q, rest := PipeSound(s, GetToken(s, e).next, mid[1..]);
      p := Piped(c, q);
      Joints(SimpleToks(c), [Sym('|')], PipeToks(q), rest);
    }
  }

  lemma Joints<T>(a: seq<T>, b: seq<T>, c: seq<T>, d: seq<T>)
    ensures a + b + c + d == a + (b + (c + d))
  {
  }

  lemma {:induction false} BacksSound(s: string, i: nat, c: Cmd, ts: seq<Tok>) returns (n: nat, rest: seq<Tok>)
    requires Reads(s, i, ts) && i <= |s|
    ensures ts == Ands(n) + rest
    ensures ParseBacks(s, i, c).value == Backed(c, n) && Reads(s, ParseBacks(s, i, c).pos, rest)
    decreases |s| - i
  {
    hide Reads, SkipSpace, GetToken;
    Sees(s, i, ts);
    if !Peek(s, i, "&") {
      n, rest := 0, ts;
    } else {
      IsSym(ts, '&');
      Advances(s, i, "&");
      n, rest := BacksSound(s, GetToken(s, i).next, Back(c), ts[1..]);
      Join([Sym('&')], Ands(n), rest);
      n := n + 1;
    }
  }

  /** Whatever the parser takes from a text for a line is a line of the grammar, and the tree is its meaning. */
  lemma {:induction false} LineSound(s: string, i: nat, ts: seq<Tok>) returns (l: Line, rest: seq<Tok>)
    requires Reads(s, i, ts) && i <= |s| && ParseLine(s, i).Ok?
    ensures LineFits(l) && ts == LineToks(l) + rest
    ensures ParseLine(s, i).value == LineCmd(l) && Reads(s, ParseLine(s, i).pos, rest)
    decreases |s| - i, 3
  {
    hide Reads, SkipSpace, GetToken, ParsePipe, ParseBacks, PipeToks, PipeFits, PipeCmd, Ands, Backed;
    var p, mid := PipeSound(s, i, ts);
    var v := PipeCmd(p);
    var n, more := BacksSound(s, ParsePipe(s, i).pos, v, mid);
    Join(PipeToks(p), Ands(n), more);
    var e := ParseBacks(s, ParsePipe(s, i).pos, v).pos;
    Sees(s, e, more);
    if !Peek(s, e, ";") {
      l, rest := Last(p, n), more;
    } else {
      IsSym(more, ';');
      Advances(s, e, ";");
      var m;
      m, rest := LineSound(s, GetToken(s, e).next, more[1..]);
      l := Then(p, n, m);
      Joints(PipeToks(p) + Ands(n), [Sym(';')], LineToks(m), rest);
    }
  }

  // ----- the language -----

  /** s is a text of the line l, with any white space between its tokens. */
  ghost predicate Spells(s: string, l: Line) {
    LineFits(l) && Reads(s, 0, LineToks(l))
  }

  lemma Spelled(s: string) returns (l: Line)
    requires NUL !in s && ParseCmd(s).Ok?
    ensures Spells(s, l) && LineCmd(l) == ParseCmd(s).value
  {
    hide Reads, ParseLine;
    var ts := Lexes(s, 0);
    var rest;
    l, rest := LineSound(s, 0, ts);
    Sees(s, ParseLine(s, 0).pos, rest);
    if rest != [] { TextStart(rest[0]); }
    assert LineToks(l) + [] == LineToks(l);
  }

  /**
    The parser yields the tree c on a text if and only if the text spells a line of the grammar whose
    meaning is c: every other text is refused, and no text has two meanings.
   */
  lemma Language(s: string, c: Cmd)
    requires NUL !in s
    ensures ParseCmd(s).Ok? && ParseCmd(s).value == c <==> exists l :: Spells(s, l) && LineCmd(l) == c
  {
    hide ParseCmd, Spells, LineCmd;
    CmdMeans(s);
  }

  /**
    r is what parsing a simple command at i should give: on any text of one, its meaning, with the
    cursor behind it; and nothing else is accepted.
   */
  ghost predicate MeansSimple(s: string, i: nat, r: Parsed<Cmd>) {
    && (forall c, rest :: SimpleFits(c) && Before(rest, "|)&;") && Reads(s, i, SimpleToks(c) + rest) ==>
        r.Ok? && r.value == SimpleCmd(c) && Reads(s, r.pos, rest))
    && (NUL !in s && r.Ok? ==> exists c, rest ::
        SimpleFits(c) && Reads(s, i, SimpleToks(c) + rest) && r.value == SimpleCmd(c) && Reads(s, r.pos, rest))
  }

  lemma ExecMeans(s: string, i: nat)
    requires i <= |s|
    ensures MeansSimple(s, i, ParseExec(s, i))
  {
    hide Reads, ParseExec, SimpleToks, SimpleFits, SimpleCmd, Before;
    forall c, rest | SimpleFits(c) && Before(rest, "|)&;") && Reads(s, i, SimpleToks(c) + rest)
      ensures var r := ParseExec(s, i); r.Ok? && r.value == SimpleCmd(c) && Reads(s, r.pos, rest)
    {
      SimpleParses(c, s, i, rest);
    }
    if NUL !in s && ParseExec(s, i).Ok? {
      var ts := Lexes(s, i);
      var c, rest := ExecSound(s, i, ts);
    }
  }

  /** r is what parsing a command line should give: the meaning of the line it spells, or a panic if it spells none. */
  ghost predicate MeansLine(s: string, r: Parsed<Cmd>) {
    && (forall l :: Spells(s, l) ==> r.Ok? && r.value == LineCmd(l))
    && (NUL !in s && r.Ok? ==> exists l :: Spells(s, l) && r.value == LineCmd(l))
  }

  lemma CmdMeans(s: string)
    ensures MeansLine(s, ParseCmd(s))
  {
    hide Reads, ParseCmd, LineToks, LineFits, LineCmd;
    forall l | Spells(s, l) ensures ParseCmd(s).Ok? && ParseCmd(s).value == LineCmd(l) {
      Accepts(l, s);
    }
    if NUL !in s && ParseCmd(s).Ok? {
      var l := Spelled(s);
    }
  }
}
