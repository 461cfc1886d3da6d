/**
  The command language of sh.c: tokens, command trees, and the recursive-descent parser as a
  function from a text and a cursor to a tree and a new cursor.  A text is a C string without its
  terminating NUL; looking at the end of the text yields NUL.
 */
module ShellSyntax {
  const MAXARGS := 20
  const NUL := '\0'

  predicate IsSpace(c: char) {
    c == ' ' || c == '\t' || c == '\r' || c == '\n' || c == 11 as char
  }

  predicate IsSymbol(c: char) {
    c == '<' || c == '|' || c == '>' || c == '&' || c == ';' || c == '(' || c == ')'
  }

  function At(s: string, i: nat): char {
    if i < |s| then s[i] else NUL
  }

  // ----- tokens -----

  /** The cursor moved past white space. */
  function SkipSpace(s: string, i: nat): (j: nat)
    requires i <= |s|
    ensures i <= j <= |s| && (j < |s| ==> !IsSpace(s[j]))
    decreases |s| - i
  {
    if i < |s| && IsSpace(s[i]) then SkipSpace(s, i + 1) else i
  }

  /** The cursor moved past the characters of a word. */
  function SkipWord(s: string, i: nat): (j: nat)
    requires i <= |s|
    ensures i <= j <= |s|
    decreases |s| - i
  {
    if i < |s| && !IsSpace(s[i]) && !IsSymbol(s[i]) then SkipWord(s, i + 1) else i
  }

  /** A token's kind, where it starts and ends, and where the cursor is afterwards. */
  datatype Token = Token(kind: char, q: nat, eq: nat, next: nat)

  /** The kind is NUL at the end, 'a' for a word, '+' for >>, and the symbol itself otherwise. */
  function GetToken(s: string, i: nat): (t: Token)
    requires i <= |s|
    ensures i <= t.q <= t.eq <= t.next <= |s|
    ensures t.kind != NUL && (t.q < |s| && s[t.q] != NUL) ==> t.next > i
  {
    var q := SkipSpace(s, i);
    var c := At(s, q);
    var kind := if c == NUL then NUL
                else if c == '>' && At(s, q + 1) == '>' then '+'
                else if IsSymbol(c) then c
                else 'a';
    var eq := if c == NUL then q
              else if kind == '+' then q + 2
              else if IsSymbol(c) then q + 1
              else SkipWord(s, q);
    Token(kind, q, eq, SkipSpace(s, eq))
  }

  /** Does one of the given symbols come next, after white space? */
  predicate Peek(s: string, i: nat, toks: string)
    requires i <= |s|
  {
    At(s, SkipSpace(s, i)) != NUL && At(s, SkipSpace(s, i)) in toks
  }

  // ----- trees -----

  /** The two ways a file is attached: (O_RDONLY, fd 0) and (O_WRONLY|O_CREATE, fd 1). */
  datatype Mode = Input | Output

  datatype Cmd =
    | Exec(argv: seq<string>)
    | Redir(cmd: Cmd, file: string, mode: Mode)
    | Pipe(left: Cmd, right: Cmd)
    | List(left: Cmd, right: Cmd)
    | Back(cmd: Cmd)

  datatype Attach = Attach(file: string, mode: Mode)

  /** cmd with files attached, the first one innermost. */
  function Wrap(cmd: Cmd, fs: seq<Attach>): Cmd {
    if fs == [] then cmd else Redir(Wrap(cmd, fs[..|fs|-1]), fs[|fs|-1].file, fs[|fs|-1].mode)
  }

  datatype Parsed<T> = Ok(value: T, pos: nat) | Panic(msg: string)

  // ----- the parser -----

  /** parseredirs: collect the redirections that come next. */
  function ParseRedirs(s: string, i: nat, fs: seq<Attach>): (r: Parsed<seq<Attach>>)
    requires i <= |s|
    ensures r.Ok? ==> i <= r.pos <= |s|
    decreases |s| - i
  {
    if !Peek(s, i, "<>") then Ok(fs, SkipSpace(s, i))
    else
      var t := GetToken(s, i);
      var w := GetToken(s, t.next);
      if w.kind != 'a' then Panic("missing file for redirection")
      else ParseRedirs(s, w.next, fs + [Attach(s[w.q..w.eq], if t.kind == '<' then Input else Output)])
  }

  /** parseexec's loop: words, with redirections between them. */
  function ParseArgs(s: string, i: nat, argv: seq<string>, fs: seq<Attach>): (r: Parsed<Cmd>)
    requires i <= |s|
    ensures r.Ok? ==> i <= r.pos <= |s|
    decreases |s| - i
  {
    if Peek(s, i, "|)&;") then Ok(Wrap(Exec(argv), fs), SkipSpace(s, i))
    else
      var t := GetToken(s, i);
      if t.kind == NUL then Ok(Wrap(Exec(argv), fs), t.next)
      else if t.kind != 'a' then Panic("syntax")
      else if |argv| + 1 >= MAXARGS then Panic("too many args")
      else
        var f := ParseRedirs(s, t.next, fs);
        if f.Panic? then Panic(f.msg) else ParseArgs(s, f.pos, argv + [s[t.q..t.eq]], f.value)
  }

  function ParseExec(s: string, i: nat): (r: Parsed<Cmd>)
    requires i <= |s|
    ensures r.Ok? ==> i <= r.pos <= |s|
    decreases |s| - i, 1
  {
    if Peek(s, i, "(") then ParseBlock(s, i)
    else
      var f := ParseRedirs(s, i, []);
      if f.Panic? then Panic(f.msg) else ParseArgs(s, f.pos, [], f.value)
  }

  function ParseBlock(s: string, i: nat): (r: Parsed<Cmd>)
    requires i <= |s|
    ensures r.Ok? ==> i <= r.pos <= |s|
    decreases |s| - i, 0
  {
    if !Peek(s, i, "(") then Panic("parseblock")
    else
      var open := GetToken(s, i);
      var c := ParseLine(s, open.next);
      if c.Panic? then c
      else if !Peek(s, c.pos, ")") then Panic("syntax - missing )")
      else
        var f := ParseRedirs(s, GetToken(s, c.pos).next, []);
        if f.Panic? then Panic(f.msg) else Ok(Wrap(c.value, f.value), f.pos)
  }

  function ParsePipe(s: string, i: nat): (r: Parsed<Cmd>)
    requires i <= |s|
    ensures r.Ok? ==> i <= r.pos <= |s|
    decreases |s| - i, 2
  {
    var c := ParseExec(s, i);
    if c.Panic? then c
    else if !Peek(s, c.pos, "|") then Ok(c.value, SkipSpace(s, c.pos))
    else
      var rest := ParsePipe(s, GetToken(s, c.pos).next);
      if rest.Panic? then rest else Ok(Pipe(c.value, rest.value), rest.pos)
  }

  /** parseline's loop over '&'. */
  function ParseBacks(s: string, i: nat, c: Cmd): (r: Parsed<Cmd>)
    requires i <= |s|
    ensures r.Ok? && i <= r.pos <= |s|
    decreases |s| - i
  {
    if Peek(s, i, "&") then ParseBacks(s, GetToken(s, i).next, Back(c)) else Ok(c, SkipSpace(s, i))
  }

  function ParseLine(s: string, i: nat): (r: Parsed<Cmd>)
    requires i <= |s|
    ensures r.Ok? ==> i <= r.pos <= |s|
    decreases |s| - i, 3
  {
    var p := ParsePipe(s, i);
    if p.Panic? then p
    else
      var c := ParseBacks(s, p.pos, p.value);
      if !Peek(s, c.pos, ";") then Ok(c.value, SkipSpace(s, c.pos))
      else
        var rest := ParseLine(s, GetToken(s, c.pos).next);
        if rest.Panic? then rest else Ok(List(c.value, rest.value), rest.pos)
  }

  function ParseCmd(s: string): (r: Parsed<Cmd>) {
    var c := ParseLine(s, 0);
    if c.Panic? then c
    else if SkipSpace(s, c.pos) != |s| then Panic("syntax")
    else c
  }
}
