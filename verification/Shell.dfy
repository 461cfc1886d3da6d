/**
  The parsing routines of sh.c as they run: a cursor advanced by loops, mutual recursion between
  the routines, argument lists filled one by one.  Each is proved to compute the function of module
  ShellSyntax that has its name, a simple command and a whole line also to yield what they mean in the
  grammar of module ShellGrammar.
 */
module Shell {
  import opened ShellSyntax
  import opened ShellLanguage

  /** strchr over the white space characters, from the cursor on. */
  method SkipSpaces(s: string, i: nat) returns (j: nat)
    requires i <= |s|
    ensures j == SkipSpace(s, i)
  {
    j := i;
    while j < |s| && IsSpace(s[j])
      invariant i <= j <= |s| && SkipSpace(s, j) == SkipSpace(s, i)
    {
      j := j + 1;
    }
  }

  method RunGetToken(s: string, i: nat) returns (t: Token)
    requires i <= |s|
    ensures t == GetToken(s, i)
  {
    var j := SkipSpaces(s, i);
    var q := j;
    var kind := At(s, j);
    if kind == NUL {
    } else if kind == '|' || kind == '(' || kind == ')' || kind == ';' || kind == '&' || kind == '<' {
      j := j + 1;
    } else if kind == '>' {
      j := j + 1;
      if At(s, j) == '>' {
        kind := '+';
        j := j + 1;
      }
    } else {
      kind := 'a';
      while j < |s| && !IsSpace(s[j]) && !IsSymbol(s[j])
        invariant q <= j <= |s| && SkipWord(s, j) == SkipWord(s, q)
      {
        j := j + 1;
      }
    }
    var next := SkipSpaces(s, j);
    t := Token(kind, q, j, next);
  }

  method RunPeek(s: string, i: nat, toks: string) returns (j: nat, yes: bool)
    requires i <= |s|
    ensures j == SkipSpace(s, i) && yes == Peek(s, i, toks)
  {
    j := SkipSpaces(s, i);
    yes := At(s, j) != NUL && At(s, j) in toks;
  }

  method RunParseRedirs(s: string, i: nat) returns (r: Parsed<seq<Attach>>)
    requires i <= |s|
    ensures r == ParseRedirs(s, i, [])
  {
    var fs, j := [], i;
    while true
      invariant i <= j <= |s| && ParseRedirs(s, j, fs) == ParseRedirs(s, i, [])
      decreases |s| - j
    {
      var k, more := RunPeek(s, j, "<>");
      if !more {
        return Ok(fs, k);
      }
      var t := RunGetToken(s, j);
      var w := RunGetToken(s, t.next);
      if w.kind != 'a' {
        return Panic("missing file for redirection");
      }
      fs := fs + [Attach(s[w.q..w.eq], if t.kind == '<' then Input else Output)];
      j := w.next;
    }
  }

  /** parseredirs continued with files already attached. */
  lemma {:induction false} RedirsAppend(s: string, i: nat, fs: seq<Attach>, gs: seq<Attach>)
    requires i <= |s|
    ensures var a, b := ParseRedirs(s, i, fs + gs), ParseRedirs(s, i, gs);
      (a.Ok? <==> b.Ok?) && (b.Ok? ==> a == Ok(fs + b.value, b.pos)) && (b.Panic? ==> a == Panic(b.msg))
    decreases |s| - i
  {
    if Peek(s, i, "<>") {
      var t := GetToken(s, i);
      var w := GetToken(s, t.next);
      if w.kind == 'a' {
        var x := Attach(s[w.q..w.eq], if t.kind == '<' then Input else Output);
        RedirsAppend(s, w.next, fs, gs + [x]);
        assert fs + gs + [x] == fs + (gs + [x]);
      }
    }
  }

  method RunParseExec(s: string, i: nat) returns (r: Parsed<Cmd>)
    requires i <= |s|
    ensures r == ParseExec(s, i) && MeansSimple(s, i, r)
    decreases |s| - i, 1
  {
    hide MeansSimple;
    ExecMeans(s, i);
    var j, block := RunPeek(s, i, "(");
    if block {
      r := RunParseBlock(s, i);
      return;
    }
    var argv := [];
    var f := RunParseRedirs(s, i);
    if f.Panic? {
      return Panic(f.msg);
    }
    var fs := f.value;
    j := f.pos;
    while true
      invariant i <= j <= |s| && ParseArgs(s, j, argv, fs) == ParseExec(s, i)
      decreases |s| - j
    {
      var k, stop := RunPeek(s, j, "|)&;");
      if stop {
        return Ok(Wrap(Exec(argv), fs), k);
      }
      var t := RunGetToken(s, j);
      if t.kind == NUL {
        return Ok(Wrap(Exec(argv), fs), t.next);
      }
      if t.kind != 'a' {
        return Panic("syntax");
      }
      if |argv| + 1 >= MAXARGS {
        return Panic("too many args");
      }
      var more := RunParseRedirs(s, t.next);
      RedirsAppend(s, t.next, fs, []);
      assert fs + [] == fs;
      if more.Panic? {
        return Panic(more.msg);
      }
      argv := argv + [s[t.q..t.eq]];
      fs := fs + more.value;
      j := more.pos;
    }
  }

  method RunParseBlock(s: string, i: nat) returns (r: Parsed<Cmd>)
    requires i <= |s|
    ensures r == ParseBlock(s, i)
    decreases |s| - i, 0
  {
    var j, block := RunPeek(s, i, "(");
    if !block {
      return Panic("parseblock");
    }
    var open := RunGetToken(s, i);
    var c := RunParseLine(s, open.next);
    if c.Panic? {
      return c;
    }
    var k, closed := RunPeek(s, c.pos, ")");
    if !closed {
      return Panic("syntax - missing )");
    }
    var close := RunGetToken(s, c.pos);
    var f := RunParseRedirs(s, close.next);
    if f.Panic? {
      return Panic(f.msg);
    }
    return Ok(Wrap(c.value, f.value), f.pos);
  }

  method RunParsePipe(s: string, i: nat) returns (r: Parsed<Cmd>)
    requires i <= |s|
    ensures r == ParsePipe(s, i)
    decreases |s| - i, 2
  {
    r := RunParseExec(s, i);
    if r.Panic? {
      return;
    }
    var k, bar := RunPeek(s, r.pos, "|");
    if !bar {
      return Ok(r.value, k);
    }
    var t := RunGetToken(s, r.pos);
    var rest := RunParsePipe(s, t.next);
    if rest.Panic? {
      return rest;
    }
    return Ok(Pipe(r.value, rest.value), rest.pos);
  }

  method RunParseLine(s: string, i: nat) returns (r: Parsed<Cmd>)
    requires i <= |s|
    ensures r == ParseLine(s, i)
    decreases |s| - i, 3
  {
    var p := RunParsePipe(s, i);
    if p.Panic? {
      return p;
    }
    var c, j := p.value, p.pos;
    while true
      invariant p.pos <= j <= |s| && ParseBacks(s, j, c) == ParseBacks(s, p.pos, p.value)
      decreases |s| - j
    {
      var k, amp := RunPeek(s, j, "&");
      if !amp {
        j := k;
        break;
      }
      var t := RunGetToken(s, j);
      c, j := Back(c), t.next;
    }
    assert ParseBacks(s, p.pos, p.value) == Ok(c, j);
    var k, semi := RunPeek(s, j, ";");
    if !semi {
      return Ok(c, k);
    }
    var t := RunGetToken(s, j);
    var rest := RunParseLine(s, t.next);
    if rest.Panic? {
      return rest;
    }
    return Ok(List(c, rest.value), rest.pos);
  }

  method RunParseCmd(s: string) returns (r: Parsed<Cmd>)
    ensures r == ParseCmd(s) && MeansLine(s, r)
  {
    hide MeansLine;
    CmdMeans(s);
    r := RunParseLine(s, 0);
    if r.Ok? {
      var k := SkipSpaces(s, r.pos);
      if k != |s| {
        return Panic("syntax");
      }
    }
  }
}
