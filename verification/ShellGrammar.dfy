/** What the shell's parser computes (sh.c), as functions of the text and a
    position. Tokens are kept as the spans the source keeps pointers to. A panic
    of the parser is the result Panic. */
module ShellGrammar {
  const MAXARGS: nat := 10

  datatype Span = Span(lo: nat, hi: nat)

  /** A redirection: of the output for > and >>, of the input for <. */
  datatype File = File(name: Span, out: bool)

  datatype Cmd =
    | Exec(args: seq<Span>)
    | Redir(cmd: Cmd, file: File)
    | Pipe(left: Cmd, right: Cmd)
    | List(left: Cmd, right: Cmd)
    | Back(cmd: Cmd)

  datatype Result<T> = Ok(value: T, pos: nat) | Panic

  predicate Space(c: char) { c == ' ' || c == '\t' || c == '\r' || c == '\n' || c == '\U{b}' }

  predicate Symbol(c: char) { c == '<' || c == '|' || c == '>' || c == '&' || c == ';' || c == '(' || c == ')' }

  predicate WordChar(c: char) { !Space(c) && !Symbol(c) }

  /** The position after any white space. */
  function Skip(t: string, i: nat): (j: nat)
    requires i <= |t|
    ensures i <= j <= |t| && (j < |t| ==> !Space(t[j])) && forall k :: i <= k < j ==> Space(t[k])
    decreases |t| - i
  {
    if i < |t| && Space(t[i]) then Skip(t, i + 1) else i
  }

  /** The end of the word that starts here. */
  function WordEnd(t: string, i: nat): (j: nat)
    requires i <= |t|
    ensures i <= j <= |t| && (j < |t| ==> !WordChar(t[j])) && forall k :: i <= k < j ==> WordChar(t[k])
    decreases |t| - i
  {
    if i < |t| && WordChar(t[i]) then WordEnd(t, i + 1) else i
  }

  /** The character at i; the text ends with a NUL. */
  function Char(t: string, i: nat): char
    requires i <= |t|
  {
    if i < |t| then t[i] else '\0'
  }

  /** peek's answer. */
  predicate Next(t: string, i: nat, toks: string)
    requires i <= |t|
  {
    Skip(t, i) < |t| && t[Skip(t, i)] in toks
  }

  /** gettoken: '\0' at the end, 'a' for a word, '+' for >>, else the symbol; the
      token's span, and the position after it and any white space. */
  datatype Token = Token(kind: char, span: Span, pos: nat)

  function Get(t: string, i: nat): (r: Token)
    requires i <= |t|
    ensures i <= r.span.lo <= r.span.hi <= r.pos <= |t|
    ensures r.kind != '\0' ==> r.span.lo < r.span.hi
    ensures r.kind == '\0' <==> Skip(t, i) == |t|
  {
    var s := Skip(t, i);
    if s == |t| then Token('\0', Span(s, s), s)
    else if t[s] == '>' && Char(t, s + 1) == '>' then Token('+', Span(s, s + 2), Skip(t, s + 2))
    else if Symbol(t[s]) then Token(t[s], Span(s, s + 1), Skip(t, s + 1))
    else Token('a', Span(s, WordEnd(t, s)), Skip(t, WordEnd(t, s)))
  }

  /** parseredirs: the redirections found, in order. */
  function Redirs(t: string, i: nat, files: seq<File>): (r: Result<seq<File>>)
    requires i <= |t|
    ensures r.Ok? ==> i <= r.pos <= |t|
    decreases |t| - i
  {
    if !Next(t, i, "<>") then Ok(files, Skip(t, i))
    else
      var op := Get(t, i);
      var name := Get(t, op.pos);
      if name.kind != 'a' then Panic
      else Redirs(t, name.pos, files + [File(name.span, op.kind != '<')])
  }

  /** Redirections wrap a command in the order they came. */
  function Wrap(c: Cmd, files: seq<File>): Cmd {
    if files == [] then c else Redir(Wrap(c, files[..|files| - 1]), files[|files| - 1])
  }

  /** The loop of parseexec: redirections, then a word or the end. */
  function Args(t: string, i: nat, args: seq<Span>, files: seq<File>): (r: Result<Cmd>)
    requires i <= |t|
    ensures r.Ok? ==> i <= r.pos <= |t|
    decreases |t| - i
  {
    match Redirs(t, i, files)
    case Panic => Panic
    case Ok(files', j) =>
      if Next(t, j, "|)&;") then Ok(Wrap(Exec(args), files'), Skip(t, j))
      else
        var tok := Get(t, j);
        if tok.kind == '\0' then Ok(Wrap(Exec(args), files'), tok.pos)
        else if tok.kind != 'a' then Panic
        else if |args| + 1 >= MAXARGS then Panic
        else Args(t, tok.pos, args + [tok.span], files')
  }

  function ParseExec(t: string, i: nat): (r: Result<Cmd>)
    requires i <= |t|
    ensures r.Ok? ==> i <= r.pos <= |t|
    decreases |t| - i, 1
  {
    if Next(t, i, "(") then ParseBlock(t, i) else Args(t, i, [], [])
  }

  function ParseBlock(t: string, i: nat): (r: Result<Cmd>)
    requires i <= |t|
    ensures r.Ok? ==> i <= r.pos <= |t|
    decreases |t| - i, 0
  {
    if !Next(t, i, "(") then Panic
    else
      match ParseLine(t, Get(t, i).pos)
      case Panic => Panic
      case Ok(c, j) =>
        if !Next(t, j, ")") then Panic
        else
          match Redirs(t, Get(t, j).pos, [])
          case Panic => Panic
          case Ok(files, k) => Ok(Wrap(c, files), k)
  }

  function ParsePipe(t: string, i: nat): (r: Result<Cmd>)
    requires i <= |t|
    ensures r.Ok? ==> i <= r.pos <= |t|
    decreases |t| - i, 2
  {
    match ParseExec(t, i)
    case Panic => Panic
    case Ok(left, j) =>
      if Next(t, j, "|") then
        match ParsePipe(t, Get(t, j).pos)
        case Panic => Panic
        case Ok(right, k) => Ok(Pipe(left, right), k)
      else Ok(left, Skip(t, j))
  }

  /** The loop of parseline over "&". */
  function Backs(t: string, i: nat, c: Cmd): (r: (Cmd, nat))
    requires i <= |t|
    ensures i <= r.1 <= |t|
    decreases |t| - i
  {
    if Next(t, i, "&") then Backs(t, Get(t, i).pos, Back(c)) else (c, Skip(t, i))
  }

  function ParseLine(t: string, i: nat): (r: Result<Cmd>)
    requires i <= |t|
    ensures r.Ok? ==> i <= r.pos <= |t|
    decreases |t| - i, 3
  {
    match ParsePipe(t, i)
    case Panic => Panic
    case Ok(c, j) =>
      var (left, k) := Backs(t, j, c);
      if Next(t, k, ";") then
        match ParseLine(t, Get(t, k).pos)
        case Panic => Panic
        case Ok(right, m) => Ok(List(left, right), m)
      else Ok(left, Skip(t, k))
  }

  /** parsecmd, up to nulterminate: anything left over is a panic. */
  function ParseCmd(t: string): (r: Result<Cmd>) {
    match ParseLine(t, 0)
    case Panic => Panic
    case Ok(c, j) => if Skip(t, j) == |t| then Ok(c, |t|) else Panic
  }
}
