/** The shell's parser as sh.c runs it: a pointer moves over the buffer, and at
    the end nulterminate writes NULs into the buffer itself. */
module Shell {
  import opened ShellGrammar

  predicate NoNul(t: string) { forall k :: 0 <= k < |t| ==> t[k] != '\0' }

  method SkipSpace(t: string, ps: nat) returns (s: nat)
    requires ps <= |t|
    ensures s == Skip(t, ps)
  {
    s := ps;
    while s < |t| && Space(t[s])
      invariant ps <= s <= |t| && Skip(t, s) == Skip(t, ps)
    {
      s := s + 1;
    }
  }

  method GetToken(t: string, ps: nat) returns (tok: Token)
    requires ps <= |t|
    ensures tok == Get(t, ps)
  {
    var s := SkipSpace(t, ps);
    var q, ret := s, Char(t, s);
    if s == |t| {
      ret := '\0';
    } else if t[s] == '>' {
      s := s + 1;
      if Char(t, s) == '>' {
        ret := '+';
        s := s + 1;
      }
    } else if Symbol(t[s]) {
      s := s + 1;
    } else {
      ret := 'a';
      while s < |t| && !Space(t[s]) && !Symbol(t[s])
        invariant q <= s <= |t| && WordEnd(t, s) == WordEnd(t, q)
      {
        s := s + 1;
      }
    }
    var eq := s;
    s := SkipSpace(t, s);
    tok := Token(ret, Span(q, eq), s);
  }

  /** peek: whether one of toks comes next, and where. */
  method Peek(t: string, ps: nat, toks: string) returns (yes: bool, s: nat)
    requires ps <= |t|
    ensures yes == Next(t, ps, toks) && s == Skip(t, ps)
  {
    s := SkipSpace(t, ps);
    yes := s < |t| && t[s] in toks;
  }

  lemma SkipSkip(t: string, i: nat)
    requires i <= |t|
    ensures Skip(t, Skip(t, i)) == Skip(t, i) && Get(t, Skip(t, i)) == Get(t, i)
    ensures forall toks :: Next(t, Skip(t, i), toks) == Next(t, i, toks)
  {
  }

  /** parseredirs, which wraps the redirections found around those before. */
  method ParseRedirs(t: string, ps: nat, before: seq<File>) returns (r: Result<seq<File>>)
    requires ps <= |t|
    ensures r == Redirs(t, ps, before)
  {
    hide Skip, Get, Next;
    var files := before;
    var yes, s := Peek(t, ps, "<>");
    ghost var at: nat := ps;
    while yes
      invariant at <= s <= |t| && yes == Next(t, at, "<>") && s == Skip(t, at)
      invariant Redirs(t, at, files) == Redirs(t, ps, before)
      decreases |t| - s, yes
    {
      SkipSkip(t, at);
      var op := GetToken(t, s);
      var name := GetToken(t, op.pos);
      if name.kind != 'a' {
        return Panic;
      }
      files := files + [File(name.span, op.kind != '<')];
      at := name.pos;
      yes, s := Peek(t, name.pos, "<>");
    }
    return Ok(files, s);
  }

  method ParseExec(t: string, ps: nat) returns (r: Result<Cmd>)
    requires ps <= |t|
    ensures r == ShellGrammar.ParseExec(t, ps)
    decreases |t| - ps, 1
  {
    hide Skip, Get, Next, Redirs, Wrap;
    SkipSkip(t, ps);
    var block, s := Peek(t, ps, "(");
    if block {
      r := ParseBlock(t, ps);
      return;
    }
    var args, files := [], [];
    SkipRedirs(t, ps, []);
    ArgsFrom(t, ps, s);
    var found := ParseRedirs(t, s, files);
    if found.Panic? {
      return Panic;
    }
    ghost var at, before: seq<File> := s, [];
    while true
      invariant at <= |t| && found.Ok? && found == Redirs(t, at, before) && |args| < MAXARGS
      invariant Args(t, at, args, before) == Args(t, ps, [], [])
      decreases |t| - at
    {
      files := found.value;
      SkipSkip(t, found.pos);
      var stop, j := Peek(t, found.pos, "|)&;");
      if stop {
        return Ok(Wrap(Exec(args), files), j);
      }
      var tok := GetToken(t, j);
      if tok.kind == '\0' {
        return Ok(Wrap(Exec(args), files), tok.pos);
      }
      if tok.kind != 'a' {
        return Panic;
      }
      args := args + [tok.span];
      if |args| >= MAXARGS {
        return Panic;
      }
      at, before := tok.pos, files;
      found := ParseRedirs(t, tok.pos, files);
      if found.Panic? {
        return Panic;
      }
    }
  }

  /** White space before redirections and words does not matter. */
  lemma SkipRedirs(t: string, i: nat, files: seq<File>)
    requires i <= |t|
    ensures Redirs(t, Skip(t, i), files) == Redirs(t, i, files)
  {
    SkipSkip(t, i);
  }

  lemma ArgsFrom(t: string, i: nat, s: nat)
    requires i <= |t| && s == Skip(t, i)
    ensures Args(t, s, [], []) == Args(t, i, [], [])
  {
    SkipRedirs(t, i, []);
  }

  method ParseBlock(t: string, ps: nat) returns (r: Result<Cmd>)
    requires ps <= |t|
    ensures r == ShellGrammar.ParseBlock(t, ps)
    decreases |t| - ps, 0
  {
    hide Skip, Redirs, Wrap;
    SkipSkip(t, ps);
    var open, s := Peek(t, ps, "(");
    if !open {
      return Panic;
    }
    var tok := GetToken(t, s);
    var inside := ParseLine(t, tok.pos);
    if inside.Panic? {
      return Panic;
    }
    SkipSkip(t, inside.pos);
    var close, e := Peek(t, inside.pos, ")");
    if !close {
      return Panic;
    }
    tok := GetToken(t, e);
    var found := ParseRedirs(t, tok.pos, []);
    if found.Panic? {
      return Panic;
    }
    return Ok(Wrap(inside.value, found.value), found.pos);
  }

  method ParsePipe(t: string, ps: nat) returns (r: Result<Cmd>)
    requires ps <= |t|
    ensures r == ShellGrammar.ParsePipe(t, ps)
    decreases |t| - ps, 2
  {
    hide Skip;
    var left := ParseExec(t, ps);
    if left.Panic? {
      return Panic;
    }
    SkipSkip(t, left.pos);
    var more, s := Peek(t, left.pos, "|");
    if !more {
      return Ok(left.value, s);
    }
    var tok := GetToken(t, s);
    var right := ParsePipe(t, tok.pos);
    if right.Panic? {
      return Panic;
    }
    return Ok(Pipe(left.value, right.value), right.pos);
  }

  method ParseLine(t: string, ps: nat) returns (r: Result<Cmd>)
    requires ps <= |t|
    ensures r == ShellGrammar.ParseLine(t, ps)
    decreases |t| - ps, 3
  {
    hide Skip, Get, Next;
    var first := ParsePipe(t, ps);
    if first.Panic? {
      return Panic;
    }
    var cmd := first.value;
    ghost var at := first.pos;
    var amp, s := Peek(t, first.pos, "&");
    while amp
      invariant first.pos <= at <= s <= |t| && amp == Next(t, at, "&") && s == Skip(t, at)
      invariant Backs(t, at, cmd) == Backs(t, first.pos, first.value)
      decreases |t| - at
    {
      SkipSkip(t, at);
      var tok := GetToken(t, s);
      TokenMoves(t, s, "&");
      cmd := Back(cmd);
      at := tok.pos;
      amp, s := Peek(t, tok.pos, "&");
    }
    SkipSkip(t, at);
    var semi, e := Peek(t, s, ";");
    if !semi {
      return Ok(cmd, e);
    }
    SkipSkip(t, s);
    var tok := GetToken(t, e);
    TokenMoves(t, s, ";");
    var rest := ParseLine(t, tok.pos);
    if rest.Panic? {
      return Panic;
    }
    return Ok(List(cmd, rest.value), rest.pos);
  }

  lemma TokenMoves(t: string, i: nat, toks: string)
    requires i <= |t| && Next(t, i, toks)
    ensures Get(t, i).pos > i
  {
  }

  // ---- tokens ----

  /** A span is a whole word of the text. */
  ghost predicate WholeWord(t: string, s: Span) {
    && s.lo < s.hi <= |t| && (forall k :: s.lo <= k < s.hi ==> WordChar(t[k]))
    && (s.hi < |t| ==> !WordChar(t[s.hi]))
  }

  /** Every token a command points at is a whole word. */
  ghost predicate AllWords(t: string, c: Cmd) {
    match c
    case Exec(args) => forall k :: 0 <= k < |args| ==> WholeWord(t, args[k])
    case Redir(c1, f) => AllWords(t, c1) && WholeWord(t, f.name)
    case Pipe(l, r) => AllWords(t, l) && AllWords(t, r)
    case List(l, r) => AllWords(t, l) && AllWords(t, r)
    case Back(c1) => AllWords(t, c1)
  }

  ghost predicate FileWords(t: string, files: seq<File>) {
    forall k :: 0 <= k < |files| ==> WholeWord(t, files[k].name)
  }

  lemma {:induction false} RedirsWords(t: string, i: nat, files: seq<File>)
    requires i <= |t| && FileWords(t, files)
    ensures Redirs(t, i, files).Ok? ==> FileWords(t, Redirs(t, i, files).value)
    decreases |t| - i
  {
    if Next(t, i, "<>") {
      var name := Get(t, Get(t, i).pos);
      if name.kind == 'a' { RedirsWords(t, name.pos, files + [File(name.span, Get(t, i).kind != '<')]); }
    }
  }

  lemma {:induction false} WrapWords(t: string, c: Cmd, files: seq<File>)
    requires AllWords(t, c) && FileWords(t, files)
    ensures AllWords(t, Wrap(c, files))
  {
    if files != [] { WrapWords(t, c, files[..|files| - 1]); }
  }

  lemma {:induction false} ArgsWords(t: string, i: nat, args: seq<Span>, files: seq<File>)
    requires i <= |t| && AllWords(t, Exec(args)) && FileWords(t, files)
    ensures Args(t, i, args, files).Ok? ==> AllWords(t, Args(t, i, args, files).value)
    decreases |t| - i
  {
    hide Redirs, Wrap;
    RedirsWords(t, i, files);
    var found := Redirs(t, i, files);
    if found.Ok? {
      WrapWords(t, Exec(args), found.value);
      var tok := Get(t, found.pos);
      if tok.kind == 'a' && |args| + 1 < MAXARGS { ArgsWords(t, tok.pos, args + [tok.span], found.value); }
    }
  }

  lemma {:induction false} LineWords(t: string, i: nat)
    requires i <= |t|
    ensures ShellGrammar.ParseLine(t, i).Ok? ==> AllWords(t, ShellGrammar.ParseLine(t, i).value)
    decreases |t| - i, 3
  {
    PipeWords(t, i);
    var first := ShellGrammar.ParsePipe(t, i);
    if first.Ok? {
      BackWords(t, first.pos, first.value);
      var k := Backs(t, first.pos, first.value).1;
      if Next(t, k, ";") { LineWords(t, Get(t, k).pos); }
    }
  }

  lemma {:induction false} BackWords(t: string, i: nat, c: Cmd)
    requires i <= |t| && AllWords(t, c)
    ensures AllWords(t, Backs(t, i, c).0)
    decreases |t| - i
  {
    if Next(t, i, "&") { BackWords(t, Get(t, i).pos, Back(c)); }
  }

  lemma {:induction false} PipeWords(t: string, i: nat)
    requires i <= |t|
    ensures ShellGrammar.ParsePipe(t, i).Ok? ==> AllWords(t, ShellGrammar.ParsePipe(t, i).value)
    decreases |t| - i, 2
  {
    ExecWords(t, i);
    var first := ShellGrammar.ParseExec(t, i);
    if first.Ok? && Next(t, first.pos, "|") { PipeWords(t, Get(t, first.pos).pos); }
  }

  lemma {:induction false} ExecWords(t: string, i: nat)
    requires i <= |t|
    ensures ShellGrammar.ParseExec(t, i).Ok? ==> AllWords(t, ShellGrammar.ParseExec(t, i).value)
    decreases |t| - i, 1
  {
    hide Args, Redirs, Wrap;
    if Next(t, i, "(") {
      LineWords(t, Get(t, i).pos);
      var inside := ShellGrammar.ParseLine(t, Get(t, i).pos);
      if inside.Ok? && Next(t, inside.pos, ")") {
        var j := Get(t, inside.pos).pos;
        RedirsWords(t, j, []);
        if Redirs(t, j, []).Ok? { WrapWords(t, inside.value, Redirs(t, j, []).value); }
      }
    } else {
      ArgsWords(t, i, [], []);
    }
  }

  // ---- nulterminate ----

  /** The spans a command points at. */
  function Tokens(c: Cmd): set<Span> {
    match c
    case Exec(args) => set k | 0 <= k < |args| :: args[k]
    case Redir(c1, f) => Tokens(c1) + {f.name}
    case Pipe(l, r) => Tokens(l) + Tokens(r)
    case List(l, r) => Tokens(l) + Tokens(r)
    case Back(c1) => Tokens(c1)
  }

  /** Where nulterminate writes: just past each token. */
  ghost predicate End(c: Cmd, k: nat) {
    exists s :: s in Tokens(c) && s.hi == k
  }

  ghost predicate Fits(buf: array<char>, c: Cmd) {
    forall s :: s in Tokens(c) ==> s.hi < buf.Length
  }

  method NulTerminate(buf: array<char>, c: Cmd)
    requires Fits(buf, c)
    modifies buf
    ensures forall k :: 0 <= k < buf.Length ==> buf[k] == if End(c, k) then '\0' else old(buf[k])
    decreases c
  {
    match c
    case Exec(args) =>
      var i := 0;
      while i < |args|
        invariant 0 <= i <= |args|
        invariant forall k :: 0 <= k < buf.Length ==>
          buf[k] == if (exists j :: 0 <= j < i && args[j].hi == k) then '\0' else old(buf[k])
      {
        assert args[i] in Tokens(c);
        buf[args[i].hi] := '\0';
        i := i + 1;
      }
      forall k | 0 <= k < buf.Length ensures End(c, k) <==> exists j :: 0 <= j < i && args[j].hi == k {
        if j :| 0 <= j < i && args[j].hi == k { assert args[j] in Tokens(c); }
      }
    case Redir(c1, f) =>
      assert f.name in Tokens(c);
      NulTerminate(buf, c1);
      buf[f.name.hi] := '\0';
    case Pipe(l, r) =>
      NulTerminate(buf, l);
      NulTerminate(buf, r);
    case List(l, r) =>
      NulTerminate(buf, l);
      NulTerminate(buf, r);
    case Back(c1) =>
      NulTerminate(buf, c1);
  }

  /** The C string at position i. */
  function CString(b: string, i: nat): string
    decreases |b| - i
  {
    if i < |b| && b[i] != '\0' then [b[i]] + CString(b, i + 1) else ""
  }

  lemma {:induction false} CStringIs(b: string, lo: nat, hi: nat)
    requires lo <= hi < |b| && b[hi] == '\0' && forall k :: lo <= k < hi ==> b[k] != '\0'
    ensures CString(b, lo) == b[lo..hi]
    decreases hi - lo
  {
    if lo < hi { CStringIs(b, lo + 1, hi); }
  }

  lemma {:induction false} TokensWhole(t: string, c: Cmd, s: Span)
    requires AllWords(t, c) && s in Tokens(c)
    ensures WholeWord(t, s)
  {
    match c
    case Exec(_) =>
    case Redir(c1, f) => if s != f.name { TokensWhole(t, c1, s); }
    case Pipe(l, r) => if s in Tokens(l) { TokensWhole(t, l, s); } else { TokensWhole(t, r, s); }
    case List(l, r) => if s in Tokens(l) { TokensWhole(t, l, s); } else { TokensWhole(t, r, s); }
    case Back(c1) => TokensWhole(t, c1, s);
  }

  /** No NUL lands inside a token: the end of one is never within another. */
  lemma NoEndInside(t: string, c: Cmd, s: Span, k: nat)
    requires AllWords(t, c) && s in Tokens(c) && s.lo <= k < s.hi
    ensures !End(c, k)
  {
    TokensWhole(t, c, s);
    forall s' | s' in Tokens(c) ensures s'.hi != k {
      TokensWhole(t, c, s');
    }
  }

  /** parsecmd on the line t in buf, which a NUL ends. When it returns, every
      argument and file name is a NUL-terminated string in buf that reads as the
      token found while parsing. */
  method ParseCmd(buf: array<char>, t: string) returns (r: Result<Cmd>)
    requires buf.Length == |t| + 1 && buf[..|t|] == t && buf[|t|] == '\0' && NoNul(t)
    modifies buf
    ensures r == ShellGrammar.ParseCmd(t)
    ensures r.Panic? ==> buf[..] == old(buf[..])
    ensures r.Ok? ==> forall s :: s in Tokens(r.value) ==> s.lo < s.hi <= |t| && CString(buf[..], s.lo) == t[s.lo..s.hi]
  {
    hide Tokens, ShellGrammar.ParseLine;
    var line := ParseLine(t, 0);
    if line.Panic? {
      return Panic;
    }
    var _, s := Peek(t, line.pos, "");
    if s != |t| {
      return Panic;
    }
    LineWords(t, 0);
    ghost var c := line.value;
    forall s | s in Tokens(c) ensures s.hi < buf.Length {
      TokensWhole(t, c, s);
    }
    NulTerminate(buf, line.value);
    forall s | s in Tokens(c) ensures s.lo < s.hi <= |t| && CString(buf[..], s.lo) == t[s.lo..s.hi] {
      Reads(t, c, s, buf[..]);
    }
    return Ok(line.value, |t|);
  }

  /** What a token reads as once every end holds a NUL. */
  lemma Reads(t: string, c: Cmd, s: Span, b: string)
    requires AllWords(t, c) && s in Tokens(c) && |b| == |t| + 1 && NoNul(t)
    requires forall k :: 0 <= k < |b| ==> b[k] == if End(c, k) then '\0' else if k < |t| then t[k] else '\0'
    ensures s.lo < s.hi <= |t| && CString(b, s.lo) == t[s.lo..s.hi]
  {
    TokensWhole(t, c, s);
    assert End(c, s.hi);
    forall k | s.lo <= k < s.hi ensures b[k] == t[k] && b[k] != '\0' {
      NoEndInside(t, c, s, k);
    }
    CStringIs(b, s.lo, s.hi);
  }
}
