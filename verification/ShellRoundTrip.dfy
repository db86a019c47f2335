/** Printing a command and parsing it again. */
module ShellRoundTrip {
  import opened ShellGrammar
  import Shell

  /** What a command is to do, with its words spelled out. */
  datatype Tree =
    | Words(args: seq<string>)
    | Redirect(cmd: Tree, name: string, out: bool)
    | Piped(left: Tree, right: Tree)
    | Then(left: Tree, right: Tree)
    | Behind(cmd: Tree)

  /** <, > and >>. */
  datatype Arrow = In | Out | Append

  /** A word of a command, or a redirection. */
  datatype Item = Arg(word: string) | To(arrow: Arrow, name: string)

  /** A command as the user types it: words and redirections in any order, redirections
      after a command in parentheses, and |, ; and &. */
  datatype Source =
    | Simple(items: seq<Item>)
    | Into(cmd: Source, file: Item)
    | Bar(left: Source, right: Source)
    | Semi(left: Source, right: Source)
    | Amp(cmd: Source)

  predicate Word(w: string) { w != "" && forall k :: 0 <= k < |w| ==> WordChar(w[k]) }

  predicate LegalItem(x: Item) { Word(if x.Arg? then x.word else x.name) }

  /** How many of the items from k on are words. */
  function Argc(items: seq<Item>, k: nat): (n: nat)
    requires k <= |items|
    ensures n <= |items| - k
    decreases |items| - k
  {
    if k == |items| then 0 else (if items[k].Arg? then 1 else 0) + Argc(items, k + 1)
  }

  /** Words are words and a command has fewer than MAXARGS of them. */
  predicate Legal(c: Source) {
    match c
    case Simple(items) => Argc(items, 0) < MAXARGS && forall k :: 0 <= k < |items| ==> LegalItem(items[k])
    case Into(c1, f) => Legal(c1) && f.To? && LegalItem(f)
    case Bar(l, r) => Legal(l) && Legal(r)
    case Semi(l, r) => Legal(l) && Legal(r)
    case Amp(c1) => Legal(c1)
  }

  // ---- what it means ----

  /** < is of the input; > and >> are of the output. */
  function IsOut(a: Arrow): bool {
    match a case In => false case Out => true case Append => true
  }

  /** The words among the items from k on, in order. */
  function ArgsOf(items: seq<Item>, k: nat): seq<string>
    requires k <= |items|
    decreases |items| - k
  {
    if k == |items| then []
    else (if items[k].Arg? then [items[k].word] else []) + ArgsOf(items, k + 1)
  }

  /** The command with the redirections among the items from k on around it, in order. */
  function Around(c: Tree, items: seq<Item>, k: nat): Tree
    requires k <= |items|
    decreases |items| - k
  {
    if k == |items| then c
    else if items[k].Arg? then Around(c, items, k + 1)
    else Around(Redirect(c, items[k].name, IsOut(items[k].arrow)), items, k + 1)
  }

  function Intent(c: Source): Tree {
    match c
    case Simple(items) => Around(Words(ArgsOf(items, 0)), items, 0)
    case Into(c1, f) => Around(Intent(c1), [f], 0)
    case Bar(l, r) => Piped(Intent(l), Intent(r))
    case Semi(l, r) => Then(Intent(l), Intent(r))
    case Amp(c1) => Behind(Intent(c1))
  }

  /** The tree that a parsed command stands for in the text. */
  function Read(t: string, s: Span): string {
    if s.lo <= s.hi <= |t| then t[s.lo..s.hi] else ""
  }

  function Meaning(t: string, c: Cmd): Tree {
    match c
    case Exec(args) => Words(seq(|args|, k requires 0 <= k < |args| => Read(t, args[k])))
    case Redir(c1, f) => Redirect(Meaning(t, c1), Read(t, f.name), f.out)
    case Pipe(l, r) => Piped(Meaning(t, l), Meaning(t, r))
    case List(l, r) => Then(Meaning(t, l), Meaning(t, r))
    case Back(c1) => Behind(Meaning(t, c1))
  }

  /** What runcmd is told: the C strings that the command points at in the buffer. */
  function Told(b: string, c: Cmd): Tree {
    match c
    case Exec(args) => Words(seq(|args|, k requires 0 <= k < |args| => Shell.CString(b, args[k].lo)))
    case Redir(c1, f) => Redirect(Told(b, c1), Shell.CString(b, f.name.lo), f.out)
    case Pipe(l, r) => Piped(Told(b, l), Told(b, r))
    case List(l, r) => Then(Told(b, l), Told(b, r))
    case Back(c1) => Behind(Told(b, c1))
  }

  ghost predicate Terminated(b: string, t: string, c: Cmd) {
    forall s :: s in Shell.Tokens(c) ==> s.lo < s.hi <= |t| && Shell.CString(b, s.lo) == t[s.lo..s.hi]
  }

  lemma {:induction false} ToldIs(b: string, t: string, c: Cmd)
    requires Terminated(b, t, c)
    ensures Told(b, c) == Meaning(t, c)
  {
    hide Shell.CString;
    match c
    case Exec(args) =>
      forall k | 0 <= k < |args| ensures Shell.CString(b, args[k].lo) == Read(t, args[k]) {
        assert args[k] in Shell.Tokens(c);
      }
    case Redir(c1, f) =>
      assert f.name in Shell.Tokens(c);
      ToldIs(b, t, c1);
    case Pipe(l, r) =>
      ToldIs(b, t, l);
      ToldIs(b, t, r);
    case List(l, r) =>
      ToldIs(b, t, l);
      ToldIs(b, t, r);
    case Back(c1) =>
      ToldIs(b, t, c1);
  }

  /** parsecmd on any line: what the terminated buffer tells runcmd is what the text means. */
  method ParseAndTell(buf: array<char>, t: string) returns (r: Result<Cmd>)
    requires buf.Length == |t| + 1 && buf[..|t|] == t && buf[|t|] == '\0' && Shell.NoNul(t)
    modifies buf
    ensures r == ParseCmd(t)
    ensures r.Ok? ==> Told(buf[..], r.value) == Meaning(t, r.value)
  {
    hide Shell.Tokens, Shell.CString, Meaning, Told, ParseCmd;
    r := Shell.ParseCmd(buf, t);
    if r.Ok? {
      ToldIs(buf[..], t, r.value);
    }
  }

  // ---- how it is printed ----

  function ArrowText(a: Arrow): string {
    match a case In => "<" case Out => ">" case Append => ">>"
  }

  function ShowItem(x: Item): string {
    match x
    case Arg(w) => w + " "
    case To(a, name) => ArrowText(a) + (name + " ")
  }

  function ShowItems(items: seq<Item>, k: nat): string
    requires k <= |items|
    decreases |items| - k
  {
    if k == |items| then "" else ShowItem(items[k]) + ShowItems(items, k + 1)
  }

  /** How tightly a command binds: what it can be printed as without parentheses. */
  function Rank(c: Source): nat {
    match c
    case Semi(_, _) => 0
    case Amp(_) => 1
    case Bar(_, _) => 2
    case _ => 3
  }

  function Show(c: Source): string
    decreases c, 0
  {
    match c
    case Simple(items) => ShowItems(items, 0)
    case Into(c1, f) => ShowAt(c1, 3) + ShowItem(f)
    case Bar(l, r) => ShowAt(l, 3) + "|" + ShowAt(r, 2)
    case Semi(l, r) => ShowAt(l, 1) + ";" + Show(r)
    case Amp(c1) => ShowAt(c1, 1) + "&"
  }

  /** In parentheses where the context binds more tightly. */
  function ShowAt(c: Source, rank: nat): string
    decreases c, 1
  {
    if Rank(c) < rank then "(" + Show(c) + ")" else Show(c)
  }

  // ---- text at a position ----

  ghost predicate At(t: string, i: nat, w: string) {
    i + |w| <= |t| && forall k :: i <= k < i + |w| ==> t[k] == w[k - i]
  }

  lemma AtConcat(t: string, i: nat, a: string, b: string)
    requires At(t, i, a + b)
    ensures At(t, i, a) && At(t, i + |a|, b)
  {
    forall k | i <= k < i + |a| ensures t[k] == a[k - i] {
      assert (a + b)[k - i] == a[k - i];
    }
    forall k | i + |a| <= k < i + |a| + |b| ensures t[k] == b[k - (i + |a|)] {
      assert (a + b)[k - i] == b[k - i - |a|];
    }
  }

  lemma AtRead(t: string, i: nat, w: string)
    requires At(t, i, w)
    ensures Read(t, Span(i, i + |w|)) == w
  {
  }

  /** The text goes on at e with the end or with one of the characters. */
  ghost predicate Stops(t: string, e: nat, stops: string) {
    e <= |t| && (e == |t| || t[e] in stops)
  }

  /** gettoken on a word followed by a blank, and on a symbol. */
  lemma GetWord(t: string, i: nat, w: string)
    requires Word(w) && At(t, i, w + " ")
    ensures Get(t, i) == Token('a', Span(i, i + |w|), Skip(t, i + |w| + 1))
    ensures !Next(t, i, "<>") && !Next(t, i, "|)&;") && !Next(t, i, "(")
  {
    assert (w + " ")[|w|] == ' ';
    assert t[i] == (w + " ")[0] == w[0];
    assert Skip(t, i) == i;
    forall k | i <= k < i + |w| ensures WordChar(t[k]) {
      assert t[k] == (w + " ")[k - i] == w[k - i];
    }
    assert t[i + |w|] == ' ';
    assert WordEnd(t, i) == i + |w|;
  }

  lemma GetSymbol(t: string, i: nat, c: char)
    requires i < |t| && t[i] == c && Symbol(c) && c != '>'
    ensures Get(t, i) == Token(c, Span(i, i + 1), Skip(t, i + 1)) && Skip(t, i) == i
  {
  }

  // ---- words and redirections ----

  /** Where the words among the items end up, and the files. */
  function ArgSpans(items: seq<Item>, k: nat, i: nat): seq<Span>
    requires k <= |items|
    decreases |items| - k
  {
    if k == |items| then []
    else
      var rest := ArgSpans(items, k + 1, i + |ShowItem(items[k])|);
      if items[k].Arg? then [Span(i, i + |items[k].word|)] + rest else rest
  }

  function FileAt(f: Item, i: nat): File
    requires f.To?
  {
    var j := i + |ArrowText(f.arrow)|;
    File(Span(j, j + |f.name|), IsOut(f.arrow))
  }

  function FileSpans(items: seq<Item>, k: nat, i: nat): seq<File>
    requires k <= |items|
    decreases |items| - k
  {
    if k == |items| then []
    else
      var rest := FileSpans(items, k + 1, i + |ShowItem(items[k])|);
      if items[k].To? then [FileAt(items[k], i)] + rest else rest
  }

  /** All of these, one item at a time. */
  lemma ItemsStep(items: seq<Item>, k: nat, i: nat)
    requires k <= |items|
    ensures k == |items| ==>
              && ShowItems(items, k) == "" && Argc(items, k) == 0
              && ArgSpans(items, k, i) == [] && FileSpans(items, k, i) == []
    ensures k < |items| ==>
              var x, j := items[k], i + |ShowItem(items[k])|;
              && ShowItems(items, k) == ShowItem(x) + ShowItems(items, k + 1)
              && Argc(items, k) == (if x.Arg? then 1 else 0) + Argc(items, k + 1)
              && var args, files := ArgSpans(items, k + 1, j), FileSpans(items, k + 1, j);
              && ArgSpans(items, k, i) == (if x.Arg? then [Span(i, i + |x.word|)] + args else args)
              && FileSpans(items, k, i) == (if x.To? then [FileAt(x, i)] + files else files)
  {
    hide ShowItem, FileAt;
  }

  lemma ArgSpansStep(items: seq<Item>, k: nat, i: nat)
    requires k < |items|
    ensures var rest := ArgSpans(items, k + 1, i + |ShowItem(items[k])|);
            ArgSpans(items, k, i) == if items[k].Arg? then [Span(i, i + |items[k].word|)] + rest else rest
  {
  }

  lemma FileSpansStep(items: seq<Item>, k: nat, i: nat)
    requires k < |items|
    ensures var rest := FileSpans(items, k + 1, i + |ShowItem(items[k])|);
            FileSpans(items, k, i) == if items[k].To? then [FileAt(items[k], i)] + rest else rest
  {
  }

  lemma WidthStep(items: seq<Item>, k: nat)
    requires k < |items|
    ensures |ShowItems(items, k)| == |ShowItem(items[k])| + |ShowItems(items, k + 1)|
  {
  }

  /** The items from k on stand at i, and then the command ends. */
  ghost predicate Listed(t: string, i: nat, items: seq<Item>, k: nat) {
    && k <= |items| && (forall j :: 0 <= j < |items| ==> LegalItem(items[j]))
    && At(t, i, ShowItems(items, k)) && Stops(t, i + |ShowItems(items, k)|, "|&;)")
  }

  lemma ListedStep(t: string, i: nat, items: seq<Item>, k: nat)
    requires Listed(t, i, items, k) && k < |items|
    ensures var j := i + |ShowItem(items[k])|;
            && At(t, i, ShowItem(items[k])) && Listed(t, j, items, k + 1)
            && j + |ShowItems(items, k + 1)| == i + |ShowItems(items, k)|
  {
    hide ShowItem, At, Stops;
    AtConcat(t, i, ShowItem(items[k]), ShowItems(items, k + 1));
  }

  lemma ItemStart(x: Item)
    requires LegalItem(x)
    ensures |ShowItem(x)| > 0 && !Space(ShowItem(x)[0]) && ShowItem(x)[0] != '('
    ensures ShowItem(x)[0] in "<>" <==> x.To?
  {
    if x.Arg? { assert ShowItem(x)[0] == x.word[0]; } else { assert ShowItem(x)[0] == ArrowText(x.arrow)[0]; }
  }

  lemma ListedStart(t: string, i: nat, items: seq<Item>, k: nat)
    requires Listed(t, i, items, k)
    ensures i <= |t| && Skip(t, i) == i && !Next(t, i, "(")
    ensures k == |items| || items[k].Arg? ==> !Next(t, i, "<>")
  {
    hide ShowItem;
    if k < |items| {
      ListedStep(t, i, items, k);
      ItemStart(items[k]);
      assert t[i] == ShowItem(items[k])[0];
    }
  }

  lemma GetArrow(t: string, i: nat, a: Arrow)
    requires At(t, i, ArrowText(a)) && i + |ArrowText(a)| < |t| && WordChar(t[i + |ArrowText(a)|])
    ensures i < |t| && Skip(t, i) == i && t[i] in "<>"
    ensures var op := Get(t, i); op.pos == Skip(t, i + |ArrowText(a)|) && (op.kind != '<') == IsOut(a)
  {
    hide WordEnd;
    assert t[i] == ArrowText(a)[0];
    assert a == Append ==> t[i + 1] == ArrowText(a)[1];
  }

  /** gettoken, twice, on a redirection. */
  lemma FileBack(t: string, i: nat, f: Item)
    requires f.To? && LegalItem(f) && At(t, i, ShowItem(f))
    ensures Next(t, i, "<>")
    ensures var op, j := Get(t, i), i + |ArrowText(f.arrow)|;
            op.pos == j && (op.kind != '<') == IsOut(f.arrow)
            && Get(t, j) == Token('a', Span(j, j + |f.name|), Skip(t, i + |ShowItem(f)|))
  {
    hide Get, WordEnd;
    var a := ArrowText(f.arrow);
    AtConcat(t, i, a, f.name + " ");
    GetWord(t, i + |a|, f.name);
    assert t[i + |a|] == (f.name + " ")[0] == f.name[0];
    assert Skip(t, i + |a|) == i + |a|;
    GetArrow(t, i, f.arrow);
  }

  lemma RedirsStep(t: string, i: nat, f: Item, done: seq<File>)
    requires f.To? && LegalItem(f) && At(t, i, ShowItem(f)) && Skip(t, i + |ShowItem(f)|) == i + |ShowItem(f)|
    ensures Redirs(t, i, done) == Redirs(t, i + |ShowItem(f)|, done + [FileAt(f, i)])
  {
    hide Get, Skip, ShowItem, ArrowText;
    FileBack(t, i, f);
  }

  lemma RedirsNone(t: string, i: nat, done: seq<File>)
    requires i <= |t| && !Next(t, i, "<>")
    ensures Redirs(t, i, done) == Ok(done, Skip(t, i))
  {
  }

  lemma {:induction false} RedirsBack(t: string, i: nat, fs: seq<Item>, k: nat, done: seq<File>)
    requires k <= |fs| && Listed(t, i, fs, k) && forall j :: 0 <= j < |fs| ==> fs[j].To?
    ensures Redirs(t, i, done) == Ok(done + FileSpans(fs, k, i), i + |ShowItems(fs, k)|)
    decreases |fs| - k
  {
    hide Redirs, Skip, Next, ShowItem, Listed, FileAt, ShowItems, FileSpans;
    ListedStart(t, i, fs, k);
    ItemsStep(fs, k, i);
    if k == |fs| {
      RedirsNone(t, i, done);
      assert done + [] == done;
    } else {
      var f, j := fs[k], i + |ShowItem(fs[k])|;
      ListedStep(t, i, fs, k);
      ListedStart(t, j, fs, k + 1);
      ListedItem(t, i, fs, k);
      RedirsStep(t, i, f, done);
      RedirsBack(t, j, fs, k + 1, done + [FileAt(f, i)]);
      assert done + [FileAt(f, i)] + FileSpans(fs, k + 1, j) == done + FileSpans(fs, k, i);
    }
  }

  lemma ListedItem(t: string, i: nat, items: seq<Item>, k: nat)
    requires Listed(t, i, items, k) && k < |items|
    ensures LegalItem(items[k])
  {
  }

  /** One round of parseexec's loop on a redirection, on a word, and at the end. */
  lemma ArgsFile(t: string, i: nat, f: Item, done: seq<Span>, files: seq<File>)
    requires f.To? && LegalItem(f) && At(t, i, ShowItem(f)) && Skip(t, i + |ShowItem(f)|) == i + |ShowItem(f)|
    ensures Args(t, i, done, files) == Args(t, i + |ShowItem(f)|, done, files + [FileAt(f, i)])
  {
    hide Redirs, Skip, Get, Next, ShowItem, FileAt;
    RedirsStep(t, i, f, files);
  }

  lemma ArgsWord(t: string, i: nat, w: string, done: seq<Span>, files: seq<File>)
    requires Word(w) && At(t, i, w + " ") && |done| + 1 < MAXARGS && Skip(t, i + |w| + 1) == i + |w| + 1
             && Skip(t, i) == i
    ensures Args(t, i, done, files) == Args(t, i + |w| + 1, done + [Span(i, i + |w|)], files)
  {
    hide Skip, Get;
    GetWord(t, i, w);
    RedirsNone(t, i, files);
  }

  lemma ArgsEnd(t: string, i: nat, done: seq<Span>, files: seq<File>)
    requires Stops(t, i, "|&;)")
    ensures Args(t, i, done, files) == Ok(Wrap(Exec(done), files), i)
  {
    assert Skip(t, i) == i;
    RedirsNone(t, i, files);
  }

  /** parseexec's loop undoes the printing of words and redirections in any order. */
  lemma {:induction false} ArgsBack(t: string, i: nat, items: seq<Item>, k: nat, done: seq<Span>, files: seq<File>)
    requires Listed(t, i, items, k) && |done| + Argc(items, k) < MAXARGS
    ensures i <= |t|
    ensures Args(t, i, done, files) == Ok(Wrap(Exec(done + ArgSpans(items, k, i)), files + FileSpans(items, k, i)),
                                          i + |ShowItems(items, k)|)
    decreases |items| - k
  {
    hide Args, Skip, Next, Wrap, Redirs, Listed, FileAt, At, Stops, ShowItem, ShowItems, ArgSpans, FileSpans, Argc;
    ListedStart(t, i, items, k);
    ItemsStep(items, k, i);
    if k == |items| {
      ListedEnd(t, i, items);
      ArgsEnd(t, i, done, files);
      assert done + [] == done && files + [] == files;
    } else {
      var x, j := items[k], i + |ShowItem(items[k])|;
      ListedStep(t, i, items, k);
      ListedStart(t, j, items, k + 1);
      ListedItem(t, i, items, k);
      if x.Arg? {
        ShowArg(x);
        var arg := Span(i, i + |x.word|);
        ArgsWord(t, i, x.word, done, files);
        ArgsBack(t, j, items, k + 1, done + [arg], files);
        assert done + [arg] + ArgSpans(items, k + 1, j) == done + ArgSpans(items, k, i);
      } else {
        ArgsFile(t, i, x, done, files);
        ArgsBack(t, j, items, k + 1, done, files + [FileAt(x, i)]);
        assert files + [FileAt(x, i)] + FileSpans(items, k + 1, j) == files + FileSpans(items, k, i);
      }
    }
  }

  lemma ListedEnd(t: string, i: nat, items: seq<Item>)
    requires Listed(t, i, items, |items|)
    ensures Stops(t, i, "|&;)")
  {
  }

  lemma ShowArg(x: Item)
    requires x.Arg?
    ensures ShowItem(x) == x.word + " " && |ShowItem(x)| == |x.word| + 1
  {
  }

  // ---- a command and its redirections ----

  function Core(c: Source): Source {
    match c case Into(c1, _) => Core(c1) case _ => c
  }

  function Files(c: Source): seq<Item> {
    match c case Into(c1, f) => Files(c1) + [f] case _ => []
  }

  lemma Assoc<T>(p: seq<T>, q: seq<T>, r: seq<T>)
    ensures p + q + r == p + (q + r)
  {
  }

  /** c is a followed by b. */
  ghost predicate Joined(c: seq<Item>, a: seq<Item>, b: seq<Item>) {
    && |c| == |a| + |b| && (forall k :: 0 <= k < |a| ==> c[k] == a[k])
    && (forall k :: |a| <= k < |c| ==> c[k] == b[k - |a|])
  }

  lemma {:induction false} ItemsShift(c: seq<Item>, a: seq<Item>, b: seq<Item>, k: nat, i: nat)
    requires Joined(c, a, b) && k <= |b|
    ensures ShowItems(c, |a| + k) == ShowItems(b, k) && Argc(c, |a| + k) == Argc(b, k)
    ensures ArgSpans(c, |a| + k, i) == ArgSpans(b, k, i) && FileSpans(c, |a| + k, i) == FileSpans(b, k, i)
    decreases |b| - k
  {
    hide ShowItem, FileAt, ShowItems, ArgSpans, FileSpans, Argc;
    ItemsStep(c, |a| + k, i);
    ItemsStep(b, k, i);
    if k < |b| {
      assert c[|a| + k] == b[k];
      ItemsShift(c, a, b, k + 1, i + |ShowItem(b[k])|);
    }
  }

  lemma {:induction false} ShowConcat(c: seq<Item>, a: seq<Item>, b: seq<Item>, k: nat)
    requires Joined(c, a, b) && k <= |a|
    ensures ShowItems(c, k) == ShowItems(a, k) + ShowItems(b, 0) && Argc(c, k) == Argc(a, k) + Argc(b, 0)
    decreases |a| - k
  {
    hide ShowItem, FileAt, ShowItems, ArgSpans, FileSpans, Argc;
    ItemsStep(a, k, 0);
    if k < |a| {
      ItemsStep(c, k, 0);
      ShowConcat(c, a, b, k + 1);
      Assoc(ShowItem(a[k]), ShowItems(a, k + 1), ShowItems(b, 0));
    } else {
      ItemsShift(c, a, b, 0, 0);
      assert "" + ShowItems(b, 0) == ShowItems(b, 0);
    }
  }

  lemma {:induction false} ArgsConcat(c: seq<Item>, a: seq<Item>, b: seq<Item>, k: nat, i: nat, j: nat)
    requires Joined(c, a, b) && k <= |a| && j == i + |ShowItems(a, k)|
    ensures ArgSpans(c, k, i) == ArgSpans(a, k, i) + ArgSpans(b, 0, j)
    decreases |a| - k
  {
    hide ShowItem, ShowItems, ArgSpans;
    if k < |a| {
      var i' := i + |ShowItem(a[k])|;
      ArgSpansStep(a, k, i);
      ArgSpansStep(c, k, i);
      WidthStep(a, k);
      ArgsConcat(c, a, b, k + 1, i', j);
      if a[k].Arg? { Assoc([Span(i, i + |a[k].word|)], ArgSpans(a, k + 1, i'), ArgSpans(b, 0, j)); }
    } else {
      ItemsStep(a, k, i);
      ItemsShift(c, a, b, 0, i);
      assert [] + ArgSpans(b, 0, j) == ArgSpans(b, 0, j);
    }
  }

  lemma {:induction false} FilesConcat(c: seq<Item>, a: seq<Item>, b: seq<Item>, k: nat, i: nat, j: nat)
    requires Joined(c, a, b) && k <= |a| && j == i + |ShowItems(a, k)|
    ensures FileSpans(c, k, i) == FileSpans(a, k, i) + FileSpans(b, 0, j)
    decreases |a| - k
  {
    hide ShowItem, FileAt, ShowItems, FileSpans;
    if k < |a| {
      var i' := i + |ShowItem(a[k])|;
      FileSpansStep(a, k, i);
      FileSpansStep(c, k, i);
      WidthStep(a, k);
      FilesConcat(c, a, b, k + 1, i', j);
      if a[k].To? { Assoc([FileAt(a[k], i)], FileSpans(a, k + 1, i'), FileSpans(b, 0, j)); }
    } else {
      ItemsStep(a, k, i);
      ItemsShift(c, a, b, 0, i);
      assert [] + FileSpans(b, 0, j) == FileSpans(b, 0, j);
    }
  }

  lemma ItemsConcat(a: seq<Item>, b: seq<Item>, i: nat)
    ensures ShowItems(a + b, 0) == ShowItems(a, 0) + ShowItems(b, 0) && Argc(a + b, 0) == Argc(a, 0) + Argc(b, 0)
    ensures var j := i + |ShowItems(a, 0)|;
            && ArgSpans(a + b, 0, i) == ArgSpans(a, 0, i) + ArgSpans(b, 0, j)
            && FileSpans(a + b, 0, i) == FileSpans(a, 0, i) + FileSpans(b, 0, j)
  {
    hide ShowItems, ArgSpans, FileSpans, Argc;
    var c, j := a + b, i + |ShowItems(a, 0)|;
    ShowConcat(c, a, b, 0);
    ArgsConcat(c, a, b, 0, i, j);
    FilesConcat(c, a, b, 0, i, j);
  }

  lemma OneItem(f: Item, i: nat)
    requires f.To?
    ensures ShowItems([f], 0) == ShowItem(f) && Argc([f], 0) == 0
    ensures ArgSpans([f], 0, i) == [] && FileSpans([f], 0, i) == [FileAt(f, i)]
  {
    hide ShowItem, FileAt, ShowItems, ArgSpans, FileSpans, Argc;
    ItemsStep([f], 0, i);
    ItemsStep([f], 1, i + |ShowItem(f)|);
  }

  /** The command that parsing the printed form at position i should give. */
  function Spans(c: Source, i: nat): Cmd
    decreases c, 0
  {
    match c
    case Simple(items) => Wrap(Exec(ArgSpans(items, 0, i)), FileSpans(items, 0, i))
    case Into(c1, f) => Wrap(SpansAt(c1, 3, i), FileSpans([f], 0, i + |ShowAt(c1, 3)|))
    case Bar(l, r) => Pipe(SpansAt(l, 3, i), SpansAt(r, 2, i + |ShowAt(l, 3)| + 1))
    case Semi(l, r) => List(SpansAt(l, 1, i), Spans(r, i + |ShowAt(l, 1)| + 1))
    case Amp(c1) => Back(SpansAt(c1, 1, i))
  }

  function SpansAt(c: Source, rank: nat, i: nat): Cmd
    decreases c, 1
  {
    if Rank(c) < rank then Spans(c, i + 1) else Spans(c, i)
  }

  lemma {:induction false} WrapWrap(c: Cmd, a: seq<File>, b: seq<File>)
    ensures Wrap(Wrap(c, a), b) == Wrap(c, a + b)
  {
    if b == [] {
      assert a + b == a;
    } else {
      var b' := b[..|b| - 1];
      WrapWrap(c, a, b');
      assert (a + b)[..|a + b| - 1] == a + b' && (a + b)[|a + b| - 1] == b[|b| - 1];
    }
  }

  /** A command of rank 3 is its core followed by files. */
  lemma {:induction false} CoreShow(c: Source, i: nat)
    requires Legal(c)
    ensures var core, fs := Core(c), Files(c);
            && ShowAt(c, 3) == ShowAt(core, 3) + ShowItems(fs, 0)
            && Legal(core) && !core.Into? && (forall k :: 0 <= k < |fs| ==> fs[k].To? && LegalItem(fs[k]))
            && SpansAt(c, 3, i) == Wrap(SpansAt(core, 3, i), FileSpans(fs, 0, i + |ShowAt(core, 3)|))
            && ArgSpans(fs, 0, i + |ShowAt(core, 3)|) == [] && Argc(fs, 0) == 0
            && (core == c || core < c)
  {
    hide ShowItem, ShowItems, ArgSpans, FileSpans, Wrap, Argc;
    if c.Into? {
      var c1, f := c.cmd, c.file;
      CoreShow(c1, i);
      var core, fs := Core(c1), Files(c1);
      var j := i + |ShowAt(core, 3)|;
      ItemsConcat(fs, [f], j);
      OneItem(f, j + |ShowItems(fs, 0)|);
      assert ShowAt(c, 3) == ShowAt(core, 3) + (ShowItems(fs, 0) + ShowItem(f));
      WrapWrap(SpansAt(core, 3, i), FileSpans(fs, 0, j), FileSpans([f], 0, j + |ShowItems(fs, 0)|));
    } else {
      NoItems(ShowAt(c, 3), SpansAt(c, 3, i), i + |ShowAt(c, 3)|);
    }
  }

  lemma NoItems(s: string, c: Cmd, i: nat)
    ensures s + ShowItems([], 0) == s && Wrap(c, FileSpans([], 0, i)) == c && ArgSpans([], 0, i) == []
    ensures Argc([], 0) == 0
  {
  }

  // ---- any text ----

  lemma {:induction false} RedirsPrefix(t: string, i: nat, files: seq<File>)
    requires i <= |t| && Redirs(t, i, files).Ok?
    ensures files <= Redirs(t, i, files).value
    decreases |t| - i
  {
    hide Skip, WordEnd;
    if Next(t, i, "<>") {
      var op := Get(t, i);
      var name := Get(t, op.pos);
      RedirsPrefix(t, name.pos, files + [File(name.span, op.kind != '<')]);
    }
  }

  /** In every text that parses, < is a redirection of the input and > and >> are of the
      output. */
  lemma Direction(t: string, i: nat, files: seq<File>)
    requires i <= |t| && Next(t, i, "<>") && Redirs(t, i, files).Ok?
    ensures var found := Redirs(t, i, files).value;
            |files| < |found| && (found[|files|].out <==> t[Skip(t, i)] == '>')
  {
    hide Skip, WordEnd;
    var op := Get(t, i);
    var name := Get(t, op.pos);
    RedirsPrefix(t, name.pos, files + [File(name.span, op.kind != '<')]);
  }

  // ---- the parsers undo the printer ----

  /** Printed forms do not start with white space. */
  lemma {:induction false} CleanStart(c: Source)
    requires Legal(c)
    ensures Show(c) != "" ==> !Space(Show(c)[0])
    decreases c
  {
    hide ShowItem;
    match c
    case Simple(items) =>
      if items != [] {
        ItemStart(items[0]);
        assert Show(c)[0] == ShowItem(items[0])[0];
      }
    case Into(c1, f) =>
      CleanStart(c1);
      ItemStart(f);
    case Bar(l, _) => CleanStart(l);
    case Semi(l, _) => CleanStart(l);
    case Amp(c1) => CleanStart(c1);
  }

  lemma CleanAt(t: string, i: nat, c: Source, rank: nat)
    requires Legal(c) && At(t, i, ShowAt(c, rank)) && Stops(t, i + |ShowAt(c, rank)|, "|&;)")
    ensures Skip(t, i) == i
  {
    hide Show;
    CleanStart(c);
    if ShowAt(c, rank) != "" { assert t[i] == ShowAt(c, rank)[0]; }
  }

  lemma Paren(t: string, i: nat, c: Source, rank: nat)
    requires Rank(c) < rank && At(t, i, ShowAt(c, rank))
    ensures var e := i + 1 + |Show(c)|;
            i < |t| && t[i] == '(' && At(t, i + 1, Show(c)) && e < |t| && t[e] == ')'
            && |ShowAt(c, rank)| == |Show(c)| + 2
  {
    hide Show;
    AtConcat(t, i, "(" + Show(c), ")");
    AtConcat(t, i, "(", Show(c));
    assert ")"[0] == ')' && "("[0] == '(';
  }

  lemma Between(t: string, i: nat, a: string, c: char, b: string)
    requires At(t, i, a + [c] + b)
    ensures var j := i + |a|; At(t, i, a) && j < |t| && t[j] == c && At(t, j + 1, b)
  {
    AtConcat(t, i, a + [c], b);
    AtConcat(t, i, a, [c]);
    assert [c][0] == c;
  }

  /** parseexec on a command without parentheses of its own. */
  lemma ItemsBack(t: string, i: nat, items: seq<Item>)
    requires Listed(t, i, items, 0) && Argc(items, 0) < MAXARGS
    ensures i <= |t|
    ensures ParseExec(t, i) == Ok(Wrap(Exec(ArgSpans(items, 0, i)), FileSpans(items, 0, i)), i + |ShowItems(items, 0)|)
  {
    hide Args, Skip, Wrap, ShowItems, FileSpans, ArgSpans, Listed, Next, Argc;
    ListedStart(t, i, items, 0);
    ArgsBack(t, i, items, 0, [], []);
    assert [] + ArgSpans(items, 0, i) == ArgSpans(items, 0, i) && [] + FileSpans(items, 0, i) == FileSpans(items, 0, i);
  }

  /** parseblock, given what parseline makes of the inside. */
  lemma BlockBack(t: string, i: nat, c: Cmd, e: nat, fs: seq<Item>)
    requires i < e < |t| && t[i] == '(' && t[e] == ')' && Skip(t, i + 1) == i + 1
    requires ParseLine(t, i + 1) == Ok(c, e)
    requires Listed(t, e + 1, fs, 0) && forall j :: 0 <= j < |fs| ==> fs[j].To?
    ensures ParseExec(t, i) == Ok(Wrap(c, FileSpans(fs, 0, e + 1)), e + 1 + |ShowItems(fs, 0)|)
  {
    hide ParseLine, Redirs, Wrap, ShowItems, FileSpans, Listed;
    GetSymbol(t, i, '(');
    GetSymbol(t, e, ')');
    ListedStart(t, e + 1, fs, 0);
    RedirsBack(t, e + 1, fs, 0, []);
    assert [] + FileSpans(fs, 0, e + 1) == FileSpans(fs, 0, e + 1);
  }

  /** A simple command and the files after it are one list of items. */
  lemma FlatItems(items: seq<Item>, fs: seq<Item>, i: nat)
    requires Legal(Simple(items)) && (forall k :: 0 <= k < |fs| ==> LegalItem(fs[k])) && Argc(fs, 0) == 0
    requires ArgSpans(fs, 0, i + |ShowItems(items, 0)|) == []
    ensures var all, j := items + fs, i + |ShowItems(items, 0)|;
            && ShowItems(all, 0) == ShowItems(items, 0) + ShowItems(fs, 0) && Argc(all, 0) < MAXARGS
            && (forall k :: 0 <= k < |all| ==> LegalItem(all[k]))
            && Wrap(Exec(ArgSpans(all, 0, i)), FileSpans(all, 0, i))
               == Wrap(Wrap(Exec(ArgSpans(items, 0, i)), FileSpans(items, 0, i)), FileSpans(fs, 0, j))
  {
    hide Wrap, ShowItems, ArgSpans, FileSpans, Argc;
    var j := i + |ShowItems(items, 0)|;
    ItemsConcat(items, fs, i);
    WrapWrap(Exec(ArgSpans(items, 0, i)), FileSpans(items, 0, i), FileSpans(fs, 0, j));
    assert ArgSpans(items, 0, i) + [] == ArgSpans(items, 0, i);
  }

  lemma {:induction false} ExecBack(t: string, i: nat, c: Source)
    requires Legal(c) && At(t, i, ShowAt(c, 3)) && Stops(t, i + |ShowAt(c, 3)|, "|&;)")
    ensures i <= |t| && ParseExec(t, i) == Ok(SpansAt(c, 3, i), i + |ShowAt(c, 3)|)
    decreases c, if Rank(c) < 3 then 7 else 2
  {
    hide ParseExec, ParseLine, Wrap, ShowItems, FileSpans, At, Stops, ArgSpans, Skip, Show, Legal, Argc, LegalItem;
    var core, fs := Core(c), Files(c);
    CoreShow(c, i);
    if core.Simple? {
      CoreItems(core.items, i);
      FlatItems(core.items, fs, i);
      ItemsBack(t, i, core.items + fs);
    } else {
      AtConcat(t, i, ShowAt(core, 3), ShowItems(fs, 0));
      Paren(t, i, core, 3);
      var e := i + 1 + |Show(core)|;
      StopAt(t, e, ')');
      LineBack(t, i + 1, core);
      CleanInside(t, i + 1, core);
      BlockBack(t, i, Spans(core, i + 1), e, fs);
    }
  }

  lemma CoreItems(items: seq<Item>, i: nat)
    ensures ShowAt(Simple(items), 3) == ShowItems(items, 0)
    ensures SpansAt(Simple(items), 3, i) == Wrap(Exec(ArgSpans(items, 0, i)), FileSpans(items, 0, i))
  {
    hide ShowItems, ArgSpans, FileSpans;
  }

  lemma StopAt(t: string, e: nat, c: char)
    requires e < |t| && t[e] == c && c in "|&;)"
    ensures forall stops :: c in stops ==> Stops(t, e, stops)
  {
  }

  lemma CleanInside(t: string, i: nat, c: Source)
    requires Legal(c) && At(t, i, Show(c)) && Stops(t, i + |Show(c)|, "|&;)")
    ensures Skip(t, i) == i
  {
    hide Show;
    assert ShowAt(c, 0) == Show(c);
    CleanAt(t, i, c, 0);
  }

  lemma Stopping(t: string, e: nat)
    ensures Stops(t, e, ")") ==> Stops(t, e, "&;)") && Skip(t, e) == e && !Next(t, e, "&") && !Next(t, e, ";")
    ensures Stops(t, e, "&;)") ==> Stops(t, e, "|&;)") && Skip(t, e) == e && !Next(t, e, "|")
    ensures Stops(t, e, "|&;)") ==> Skip(t, e) == e
  {
  }

  /** One step of parsepipe, of parseline's loop, and of parseline. */
  lemma PipeEnd(t: string, i: nat, e: nat, c: Cmd)
    requires i <= |t| && ParseExec(t, i) == Ok(c, e) && e <= |t| && Skip(t, e) == e && !Next(t, e, "|")
    ensures ParsePipe(t, i) == Ok(c, e)
  {
    hide ParseExec;
  }

  lemma PipeStep(t: string, i: nat, e: nat, left: Cmd, right: Cmd, k: nat)
    requires i <= |t| && ParseExec(t, i) == Ok(left, e)
    requires e < |t| && t[e] == '|' && Skip(t, e + 1) == e + 1 && ParsePipe(t, e + 1) == Ok(right, k)
    ensures ParsePipe(t, i) == Ok(Pipe(left, right), k)
  {
    hide ParseExec;
    GetSymbol(t, e, '|');
  }

  lemma BackStep(t: string, e: nat, c: Cmd)
    requires e < |t| && t[e] == '&' && Skip(t, e + 1) == e + 1
    ensures Backs(t, e, c) == Backs(t, e + 1, Back(c))
  {
    GetSymbol(t, e, '&');
  }

  lemma LineStep(t: string, i: nat, e: nat, left: Cmd, right: Cmd, k: nat)
    requires i <= |t| && e < |t| && ParsePipe(t, i).Ok?
             && Backs(t, ParsePipe(t, i).pos, ParsePipe(t, i).value) == Backs(t, e, left)
    requires t[e] == ';' && Skip(t, e + 1) == e + 1 && ParseLine(t, e + 1) == Ok(right, k)
    ensures ParseLine(t, i) == Ok(List(left, right), k)
  {
    hide ParsePipe;
    GetSymbol(t, e, ';');
    assert !Next(t, e, "&");
  }

  lemma LineEnd(t: string, i: nat, e: nat, c: Cmd)
    requires i <= |t| && Stops(t, e, ")") && ParsePipe(t, i).Ok?
             && Backs(t, ParsePipe(t, i).pos, ParsePipe(t, i).value) == Backs(t, e, c)
    ensures ParseLine(t, i) == Ok(c, e)
  {
    hide ParsePipe;
    Stopping(t, e);
  }

  lemma {:induction false} PipeBack(t: string, i: nat, c: Source)
    requires Legal(c) && At(t, i, ShowAt(c, 2)) && Stops(t, i + |ShowAt(c, 2)|, "&;)")
    ensures i <= |t| && ParsePipe(t, i) == Ok(SpansAt(c, 2, i), i + |ShowAt(c, 2)|)
    decreases c, if Rank(c) < 2 then 8 else 3
  {
    hide ParseExec, ParsePipe, At, Stops, Skip, Next, ShowItem, ShowItems, ArgSpans, FileSpans, Wrap, Argc;
    Stopping(t, i + |ShowAt(c, 2)|);
    if c.Bar? {
      var l, r, e := c.left, c.right, i + |ShowAt(c.left, 3)|;
      Between(t, i, ShowAt(l, 3), '|', ShowAt(r, 2));
      StopAt(t, e, '|');
      ExecBack(t, i, l);
      CleanAt(t, e + 1, r, 2);
      PipeBack(t, e + 1, r);
      PipeStep(t, i, e, SpansAt(l, 3, i), SpansAt(r, 2, e + 1), i + |ShowAt(c, 2)|);
    } else {
      ExecBack(t, i, c);
      PipeEnd(t, i, i + |ShowAt(c, 2)|, SpansAt(c, 3, i));
    }
  }

  lemma {:induction false} ItemBack(t: string, i: nat, c: Source)
    requires Legal(c) && At(t, i, ShowAt(c, 1)) && Stops(t, i + |ShowAt(c, 1)|, "&;)")
    ensures i <= |t| && ParsePipe(t, i).Ok?
    ensures Backs(t, ParsePipe(t, i).pos, ParsePipe(t, i).value) == Backs(t, i + |ShowAt(c, 1)|, SpansAt(c, 1, i))
    decreases c, if Rank(c) < 1 then 9 else 4
  {
    hide ParsePipe, Backs, At, Stops, Skip, Next, ShowItem, ShowItems, ArgSpans, FileSpans, Wrap, Argc;
    Stopping(t, i + |ShowAt(c, 1)|);
    if c.Amp? {
      var c1, e := c.cmd, i + |ShowAt(c.cmd, 1)|;
      assert ShowAt(c1, 1) + "&" + "" == ShowAt(c1, 1) + "&";
      Between(t, i, ShowAt(c1, 1), '&', "");
      StopAt(t, e, '&');
      ItemBack(t, i, c1);
      BackStep(t, e, SpansAt(c1, 1, i));
    } else {
      PipeBack(t, i, c);
    }
  }

  lemma {:induction false} LineBack(t: string, i: nat, c: Source)
    requires Legal(c) && At(t, i, Show(c)) && Stops(t, i + |Show(c)|, ")")
    ensures i <= |t| && ParseLine(t, i) == Ok(Spans(c, i), i + |Show(c)|)
    decreases c, 5
  {
    hide ParseLine, ParsePipe, Backs, At, Stops, Skip, Next, ShowItem, ShowItems, ArgSpans, FileSpans, Wrap, Argc;
    Stopping(t, i + |Show(c)|);
    if c.Semi? {
      var l, r, e := c.left, c.right, i + |ShowAt(c.left, 1)|;
      Between(t, i, ShowAt(l, 1), ';', Show(r));
      StopAt(t, e, ';');
      ItemBack(t, i, l);
      CleanInside(t, e + 1, r);
      LineBack(t, e + 1, r);
      LineStep(t, i, e, SpansAt(l, 1, i), Spans(r, e + 1), i + |Show(c)|);
    } else {
      ItemBack(t, i, c);
      LineEnd(t, i, i + |Show(c)|, Spans(c, i));
    }
  }

  // ---- reading the spans ----

  /** Redirections read off the text around a command. */
  function AroundFiles(t: string, c: Tree, files: seq<File>, k: nat): Tree
    requires k <= |files|
    decreases |files| - k
  {
    if k == |files| then c
    else AroundFiles(t, Redirect(c, Read(t, files[k].name), files[k].out), files, k + 1)
  }

  lemma {:induction false} AroundSnoc(t: string, c: Tree, files: seq<File>, f: File, k: nat)
    requires k <= |files|
    ensures AroundFiles(t, c, files + [f], k) == Redirect(AroundFiles(t, c, files, k), Read(t, f.name), f.out)
    decreases |files| - k
  {
    hide Read;
    if k < |files| {
      AroundSnoc(t, Redirect(c, Read(t, files[k].name), files[k].out), files, f, k + 1);
    } else {
      var c' := Redirect(c, Read(t, f.name), f.out);
      assert AroundFiles(t, c', files + [f], k + 1) == c';
    }
  }

  lemma {:induction false} WrapMeans(t: string, c: Cmd, files: seq<File>)
    ensures Meaning(t, Wrap(c, files)) == AroundFiles(t, Meaning(t, c), files, 0)
  {
    hide Read;
    if files != [] {
      var init, f := files[..|files| - 1], files[|files| - 1];
      WrapMeans(t, c, init);
      AroundSnoc(t, Meaning(t, c), init, f, 0);
      assert init + [f] == files;
    }
  }

  lemma {:induction false} AroundShift(t: string, c: Tree, f: File, files: seq<File>, k: nat)
    requires k <= |files|
    ensures AroundFiles(t, c, [f] + files, k + 1) == AroundFiles(t, c, files, k)
    decreases |files| - k
  {
    hide Read;
    if k < |files| {
      assert ([f] + files)[k + 1] == files[k];
      AroundShift(t, Redirect(c, Read(t, files[k].name), files[k].out), f, files, k + 1);
    }
  }

  lemma FileReads(t: string, i: nat, f: Item)
    requires f.To? && At(t, i, ShowItem(f))
    ensures Read(t, FileAt(f, i).name) == f.name && FileAt(f, i).out == IsOut(f.arrow)
  {
    var a := ArrowText(f.arrow);
    AtConcat(t, i, a, f.name + " ");
    AtConcat(t, i + |a|, f.name, " ");
    AtRead(t, i + |a|, f.name);
  }

  lemma {:induction false} ReadFiles(t: string, i: nat, c: Tree, items: seq<Item>, k: nat)
    requires k <= |items| && At(t, i, ShowItems(items, k))
    ensures AroundFiles(t, c, FileSpans(items, k, i), 0) == Around(c, items, k)
    decreases |items| - k
  {
    hide At, Read, ShowItem, FileAt, ShowItems, FileSpans;
    ItemsStep(items, k, i);
    if k < |items| {
      var x, j := items[k], i + |ShowItem(items[k])|;
      AtConcat(t, i, ShowItem(x), ShowItems(items, k + 1));
      if x.Arg? {
        ReadFiles(t, j, c, items, k + 1);
      } else {
        FileReads(t, i, x);
        var c' := Redirect(c, x.name, IsOut(x.arrow));
        ReadFiles(t, j, c', items, k + 1);
        AroundShift(t, c', FileAt(x, i), FileSpans(items, k + 1, j), 0);
      }
    }
  }

  /** The words read off the text. */
  ghost function ReadAll(t: string, args: seq<Span>): seq<string> {
    seq(|args|, k requires 0 <= k < |args| => Read(t, args[k]))
  }

  lemma ReadFirst(t: string, arg: Span, args: seq<Span>)
    ensures ReadAll(t, [arg] + args) == [Read(t, arg)] + ReadAll(t, args)
  {
  }

  lemma {:induction false} ReadArgs(t: string, i: nat, items: seq<Item>, k: nat)
    requires k <= |items| && At(t, i, ShowItems(items, k))
    ensures ReadAll(t, ArgSpans(items, k, i)) == ArgsOf(items, k)
    decreases |items| - k
  {
    hide At, Read, ShowItem, ShowItems, ArgSpans, ReadAll;
    ItemsStep(items, k, i);
    if k == |items| {
      ReadNone(t);
    } else {
      var x, j := items[k], i + |ShowItem(items[k])|;
      AtConcat(t, i, ShowItem(x), ShowItems(items, k + 1));
      ReadArgs(t, j, items, k + 1);
      if x.Arg? {
        ShowArg(x);
        AtConcat(t, i, x.word, " ");
        AtRead(t, i, x.word);
        ReadFirst(t, Span(i, i + |x.word|), ArgSpans(items, k + 1, j));
      }
    }
  }

  lemma ReadNone(t: string)
    ensures ReadAll(t, []) == []
  {
  }

  lemma {:induction false} MeaningBack(t: string, i: nat, c: Source)
    requires At(t, i, Show(c)) && Legal(c)
    ensures Meaning(t, Spans(c, i)) == Intent(c)
    decreases c, 0
  {
    hide At, Read, ShowItem, ArgSpans, FileSpans, Around, AroundFiles, Wrap, ArgsOf;
    match c
    case Simple(items) =>
      var args, files := ArgSpans(items, 0, i), FileSpans(items, 0, i);
      ReadArgs(t, i, items, 0);
      assert Meaning(t, Exec(args)) == Words(ReadAll(t, args));
      WrapMeans(t, Exec(args), files);
      ReadFiles(t, i, Words(ArgsOf(items, 0)), items, 0);
    case Into(c1, f) =>
      var j := i + |ShowAt(c1, 3)|;
      AtConcat(t, i, ShowAt(c1, 3), ShowItem(f));
      MeaningAt(t, i, c1, 3);
      OneItem(f, j);
      WrapMeans(t, SpansAt(c1, 3, i), FileSpans([f], 0, j));
      ReadFiles(t, j, Intent(c1), [f], 0);
    case Bar(l, r) =>
      Between(t, i, ShowAt(l, 3), '|', ShowAt(r, 2));
      MeaningAt(t, i, l, 3);
      MeaningAt(t, i + |ShowAt(l, 3)| + 1, r, 2);
    case Semi(l, r) =>
      Between(t, i, ShowAt(l, 1), ';', Show(r));
      MeaningAt(t, i, l, 1);
      MeaningBack(t, i + |ShowAt(l, 1)| + 1, r);
    case Amp(c1) =>
      AtConcat(t, i, ShowAt(c1, 1), "&");
      MeaningAt(t, i, c1, 1);
  }

  lemma MeaningAt(t: string, i: nat, c: Source, rank: nat)
    requires At(t, i, ShowAt(c, rank)) && Legal(c)
    ensures Meaning(t, SpansAt(c, rank, i)) == Intent(c)
    decreases c, 1
  {
    hide At, Show, Spans, Meaning;
    if Rank(c) < rank {
      Paren(t, i, c, rank);
      MeaningBack(t, i + 1, c);
    } else {
      MeaningBack(t, i, c);
    }
  }

  /** Round trip: what is printed parses, to the end, as what was meant. */
  lemma RoundTrip(c: Source)
    requires Legal(c)
    ensures var t := Show(c); ParseCmd(t).Ok? && Meaning(t, ParseCmd(t).value) == Intent(c)
  {
    hide ParseLine, Show, Meaning, Spans;
    var t := Show(c);
    assert At(t, 0, t) && Stops(t, |t|, ")");
    LineBack(t, 0, c);
    MeaningBack(t, 0, c);
  }

  /** Every tree can be typed. */
  function Typed(c: Tree): Source {
    match c
    case Words(args) => Simple(seq(|args|, k requires 0 <= k < |args| => Arg(args[k])))
    case Redirect(c1, name, out) => Into(Typed(c1), To(if out then Out else In, name))
    case Piped(l, r) => Bar(Typed(l), Typed(r))
    case Then(l, r) => Semi(Typed(l), Typed(r))
    case Behind(c1) => Amp(Typed(c1))
  }

  lemma {:induction false} PlainArgs(args: seq<string>, items: seq<Item>, k: nat)
    requires k <= |args| == |items| && forall j :: 0 <= j < |args| ==> items[j] == Arg(args[j])
    ensures ArgsOf(items, k) == args[k..] && forall c :: Around(c, items, k) == c
    decreases |args| - k
  {
    if k < |args| {
      PlainArgs(args, items, k + 1);
    }
  }

  lemma {:induction false} TypedMeans(c: Tree)
    ensures Intent(Typed(c)) == c
  {
    match c
    case Words(args) =>
      PlainArgs(args, Typed(c).items, 0);
    case Redirect(c1, name, out) =>
      TypedMeans(c1);
      var f := To(if out then Out else In, name);
      assert Around(Redirect(c1, name, out), [f], 1) == Redirect(c1, name, out);
    case Piped(l, r) =>
      TypedMeans(l);
      TypedMeans(r);
    case Then(l, r) =>
      TypedMeans(l);
      TypedMeans(r);
    case Behind(c1) =>
      TypedMeans(c1);
  }
}
