/** sys_unlink, create, sys_link and iput as transactions of the file system: the
    directory tree on disk stays sound through them and through crashes. */
module DirCalls {
  import opened Blocks
  import opened Dirents
  import opened FileContent
  import opened FileOps
  import opened LinkCalls
  import opened Links
  import FsState

  /** The system calls that change directories, their paths resolved. last says that no
      one else has the inode open, so that unlink's iput frees it. */
  datatype Call =
    | Unlink(d: nat, name: string, last: bool)
    | Create(d: nat, name: string, typ: FsState.Short)
    | Link(i: nat, d: nat, name: string)
    | Reclaim(i: nat)

  predicate CallOk(c: Call) {
    match c
    case Unlink(_, name, _) => NameOk(name)
    case Create(_, name, typ) => NameOk(name) && (typ == T_DIR || typ == T_FILE)
    case Link(_, _, name) => NameOk(name)
    case Reclaim(_) => true
  }

  /** What the call checks before it changes anything. */
  predicate Goes(fs: Fs, c: Call) {
    match c
    case Unlink(d, name, _) => IsDir(fs, d) && name != DOT && name != DOTDOT && Has(fs, d, name) && CanGo(fs, d, name)
    case Create(d, name, _) => IsDir(fs, d) && !Has(fs, d, name)
    case Link(i, d, name) => Used(fs, i) && !fs[i].kind.Dir? && IsDir(fs, d) && !Has(fs, d, name)
    case Reclaim(i) => Used(fs, i) && fs[i].nlink == 0
  }

  /** link counts the file before it looks at the directory, and takes that back. */
  predicate TakesBack(fs: Fs, c: Call) {
    c.Link? && Used(fs, c.i) && !fs[c.i].kind.Dir? && !Goes(fs, c)
  }

  const MOST := 4480    // the entries of the largest directory

  /** Where the call panics by itself: in dirlink, on a directory of the largest size, and
      in create, on the ".." of a removed directory whose parent is gone. */
  predicate Halts(fs: Fs, c: Call) {
    match c
    case Create(d, name, _) =>
      (Goes(fs, c) && Slot(fs[d].entries, 0) >= MOST) || (Orphan(fs, d) && name == DOTDOT && Has(fs, d, name))
    case Link(_, d, _) => Goes(fs, c) && Slot(fs[d].entries, 0) >= MOST
    case _ => false
  }

  /** Arithmetic on a short. */
  function Wrap(x: int): (n: FsState.Short)
    requires -0x8001 <= x <= 0x8000
    ensures n == x || n == x + 0x1_0000 || n == x - 0x1_0000
  {
    if x < -0x8000 then 0x7FFF else if x < 0x8000 then x else -0x8000
  }

  // ---- the calls as operations ----

  ghost function UnlinkOps(files: seq<FileVal>, d: nat, k: nat, i: nat, last: bool): seq<Op>
    requires d < |files| && i < |files|
  {
    var erase := [Write(d, RECORD * k, Zeros(RECORD))];
    var unparent := if files[i].typ == T_DIR then erase + [Relink(d, Wrap(files[d].nlink - 1))] else erase;
    var uncount := unparent + [Relink(i, Wrap(files[i].nlink - 1))];
    if last && files[i].nlink == 1 then uncount + [Op.Free(i)] else uncount
  }

  /** create up to its last dirlink: the new inode, a directory's dots among it. */
  function NodeOps(files: seq<FileVal>, d: nat, typ: FsState.Short, i: nat): seq<Op>
    requires d < |files| <= 0x1_0000 && i < |files|
  {
    var node := [Alloc(typ)] + [Relink(i, 1)];
    if typ != T_DIR then node
    else node + [Relink(d, Wrap(files[d].nlink + 1))]
         + [Write(i, 0, Record(i, DOT))] + [Write(i, RECORD, Record(d, DOTDOT))]
  }

  ghost function OpsOf(files: seq<FileVal>, c: Call): seq<Op>
    requires 0 < |files| <= 0x1_0000 && CallOk(c)
  {
    var fs := View(files);
    if TakesBack(fs, c) then [Relink(c.i, Wrap(files[c.i].nlink + 1))] + [Relink(c.i, files[c.i].nlink)]
    else if !Goes(fs, c) then []
    else
    match c
    case Unlink(d, name, last) => UnlinkOps(files, d, Find(fs[d].entries, name, 0), Named(fs, d, name), last)
    case Create(d, name, typ) =>
      var i := FirstFree(files, 1);
      if i == |files| then [Alloc(typ)]
      else NodeOps(files, d, typ, i) + [Write(d, RECORD * Slot(fs[d].entries, 0), Record(i, name))]
    case Link(i, d, name) =>
      [Relink(i, Wrap(files[i].nlink + 1))] + [Write(d, RECORD * Slot(fs[d].entries, 0), Record(i, name))]
    case Reclaim(i) => [Op.Free(i)]
  }

  /** The tree after the call. */
  ghost function Result(fs: Fs, c: Call, inum: nat): Fs
    requires Goes(fs, c)
  {
    match c
    case Unlink(d, name, last) =>
      var i, fs' := Named(fs, d, name), Unlinked(fs, d, Find(fs[d].entries, name, 0));
      if last && i in fs && fs[i].nlink == 1 then fs'[i := Inode(Unused, 0, [])] else fs'
    case Create(d, name, typ) => Created(fs, d, name, KindOf(typ), inum)
    case Link(i, d, name) => SetEntries(SetCount(fs, i, fs[i].nlink + 1), d, Added(fs[d].entries, name, i))
    case Reclaim(i) => fs[i := Inode(Unused, 0, [])]
  }

  /** A link count goes over the top. */
  predicate Overflows(fs: Fs, c: Call) {
    match c
    case Create(d, _, typ) => Goes(fs, c) && typ == T_DIR && fs[d].nlink == 0x7FFF
    case Link(i, _, _) => Goes(fs, c) && fs[i].nlink == 0x7FFF
    case _ => false
  }

  /** An entry is put in a directory that has been removed. */
  predicate IntoRemoved(fs: Fs, c: Call) {
    (c.Create? || c.Link?) && Goes(fs, c) && !Linked(fs, c.d)
  }

  /** The call leaves the tree unsound. */
  predicate Spoils(fs: Fs, c: Call) { Overflows(fs, c) || IntoRemoved(fs, c) }

  // ---- what they mean ----

  ghost function All(files: seq<FileVal>, ops: seq<Op>): (r: seq<FileVal>)
    ensures |r| == |files|
  {
    Meanings(files, ops, |ops|)
  }

  lemma {:induction false} Prefix(files: seq<FileVal>, ops: seq<Op>, op: Op, n: nat)
    requires n <= |ops|
    ensures Meanings(files, ops + [op], n) == Meanings(files, ops, n)
  {
    if n > 0 { Prefix(files, ops, op, n - 1); }
  }

  lemma Then(files: seq<FileVal>, ops: seq<Op>, op: Op)
    ensures All(files, ops + [op]) == Meaning(All(files, ops), op)
  {
    hide Meaning;
    Prefix(files, ops, op, |ops|);
  }

  lemma One(files: seq<FileVal>, op: Op)
    ensures All(files, [op]) == Meaning(files, op)
  {
    hide Meaning;
    Then(files, [], op);
    assert [] + [op] == [op];
  }

  /** dirlink's write, after the operations ops. */
  lemma EntryView(files: seq<FileVal>, files1: seq<FileVal>, ops: seq<Op>, d: nat, name: string, i: nat)
    requires Neat(files1) && All(files, ops) == files1 && 0 < d < |files1| && files1[d].typ == T_DIR
    requires i < 0x1_0000 && NameOk(name) && Slot(View(files1)[d].entries, 0) < MOST
    ensures var es := View(files1)[d].entries;
            var files' := All(files, ops + [Write(d, RECORD * Slot(es, 0), Record(i, name))]);
            && Neat(files') && View(files') == SetEntries(View(files1), d, Added(es, name, i))
            && files' == files1[d := files1[d].(bytes := files'[d].bytes)]
  {
    hide Meanings, Overwrite, Entries, Record, Dirent, Neat;
    var k := Slot(View(files1)[d].entries, 0);
    Then(files, ops, Write(d, RECORD * k, Record(i, name)));
    ViewWrite(files1, d, k, Record(i, name));
    RecordBack(i, name);
  }

  lemma TakenBackView(files: seq<FileVal>, c: Call)
    requires Neat(files) && |files| > 0 && CallOk(c) && TakesBack(View(files), c)
    ensures All(files, OpsOf(files, c)) == files
  {
    var count, uncount := Relink(c.i, Wrap(files[c.i].nlink + 1)), Relink(c.i, files[c.i].nlink);
    One(files, count);
    Then(files, [count], uncount);
  }

  lemma LinkView(files: seq<FileVal>, i: nat, d: nat, name: string)
    requires Neat(files) && |files| > 0 && NameOk(name)
    requires var fs, c := View(files), Link(i, d, name); Goes(fs, c) && !Halts(fs, c)
    ensures var fs, c := View(files), Link(i, d, name);
            var files' := All(files, OpsOf(files, c));
            && Neat(files')
            && View(files') == SetEntries(SetCount(fs, i, Wrap(fs[i].nlink + 1)), d, Added(fs[d].entries, name, i))
            && files' == files[i := files[i].(nlink := Wrap(files[i].nlink + 1))]
                              [d := files[d].(bytes := files'[d].bytes)]
  {
    hide Meanings, Entries, Find, Record, Dirent;
    var count := Relink(i, Wrap(files[i].nlink + 1));
    One(files, count);
    ViewRelink(files, i, Wrap(files[i].nlink + 1));
    EntryView(files, Meaning(files, count), [count], d, name, i);
  }

  /** The record is erased and, of a directory, the parent's count taken down. */
  lemma UnparentView(files: seq<FileVal>, d: nat, k: nat, i: nat)
    requires Neat(files) && 0 < d < |files| && 0 < i < |files| && files[d].typ == T_DIR
    requires k < |files[d].bytes| / RECORD && files[d].nlink > -0x8000
    ensures var erase := [Write(d, RECORD * k, Zeros(RECORD))];
            var ops := if files[i].typ == T_DIR then erase + [Relink(d, files[d].nlink - 1)] else erase;
            var fs, files' := View(files), All(files, ops);
            var fs1 := SetEntries(fs, d, fs[d].entries[k := ERASED]);
            && Neat(files') && files'[i].typ == files[i].typ
            && files' == files[d := FileVal(T_DIR, if files[i].typ == T_DIR then files[d].nlink - 1 else files[d].nlink,
                                            files'[d].bytes)]
            && |files'[d].bytes| == |files[d].bytes|
            && View(files') == (if files[i].typ == T_DIR then SetCount(fs1, d, fs[d].nlink - 1) else fs1)
  {
    hide Meanings, Entries, Dirent, Overwrite;
    var write, count := Write(d, RECORD * k, Zeros(RECORD)), Relink(d, files[d].nlink - 1);
    assert NeatFile(files[d]);
    Overwritten(files[d].bytes, k, Zeros(RECORD));
    One(files, write);
    ErasedBack();
    ViewWrite(files, d, k, Zeros(RECORD));
    if files[i].typ == T_DIR {
      Then(files, [write], count);
      ViewRelink(Meaning(files, write), d, files[d].nlink - 1);
    }
  }

  /** The file or directory unlinked has its own count taken down, and may be freed. */
  lemma UncountView(files: seq<FileVal>, files1: seq<FileVal>, ops: seq<Op>, i: nat, n: FsState.Short, free: bool)
    requires Neat(files1) && All(files, ops) == files1 && 0 < i < |files1| && files1[i].typ != 0
    ensures var ops' := ops + [Relink(i, n)];
            var files' := All(files, if free then ops' + [Op.Free(i)] else ops');
            var fs' := SetCount(View(files1), i, n);
            && Neat(files') && View(files') == (if free then fs'[i := Inode(Unused, 0, [])] else fs')
            && files' == files1[i := if free then FileVal(0, n, []) else files1[i].(nlink := n)]
  {
    hide Meanings, Entries;
    Then(files, ops, Relink(i, n));
    ViewRelink(files1, i, n);
    if free {
      Then(files, ops + [Relink(i, n)], Op.Free(i));
      ViewFree(Meaning(files1, Relink(i, n)), i);
    }
  }

  /** What unlink does, file by file. */
  ghost predicate UnlinkedFiles(files: seq<FileVal>, files': seq<FileVal>, d: nat, i: nat, last: bool) {
    && d < |files| == |files'| && i < |files| && i != d && files[i].nlink >= 1 && files[d].nlink > -0x8000
    && |files'[d].bytes| == |files[d].bytes|
    && files' == files[d := FileVal(T_DIR, if files[i].typ == T_DIR then files[d].nlink - 1 else files[d].nlink,
                                    files'[d].bytes)]
                      [i := if last && files[i].nlink == 1 then FileVal(0, 0, [])
                            else files[i].(nlink := files[i].nlink - 1)]
  }

  lemma UnlinkView(files: seq<FileVal>, home: Home, d: nat, name: string, last: bool)
    requires Neat(files) && |files| > 0 && NameOk(name) && Inv(View(files), map[], home)
    requires Goes(View(files), Unlink(d, name, last))
    ensures var c := Unlink(d, name, last);
            var files' := All(files, OpsOf(files, c));
            Neat(files') && View(files') == Result(View(files), c, 0)
    ensures UnlinkedFiles(files, All(files, OpsOf(files, Unlink(d, name, last))), d, Named(View(files), d, name), last)
  {
    hide Meanings, Meaning, Entries, Find, Inv, Neat, Empty;
    var fs := View(files);
    var k, i := Find(fs[d].entries, name, 0), Named(fs, d, name);
    UnlinkFacts(fs, map[], home, d, name);
    UnlinkKeeps(fs, map[], home, d, k);
    UnparentView(files, d, k, i);
    var erase := [Write(d, RECORD * k, Zeros(RECORD))];
    var ops := if files[i].typ == T_DIR then erase + [Relink(d, files[d].nlink - 1)] else erase;
    UncountView(files, All(files, ops), ops, i, files[i].nlink - 1, last && files[i].nlink == 1);
  }

  lemma ReclaimView(files: seq<FileVal>, i: nat)
    requires Neat(files) && |files| > 0 && Goes(View(files), Reclaim(i))
    ensures var files' := All(files, OpsOf(files, Reclaim(i)));
            && Neat(files') && View(files') == Result(View(files), Reclaim(i), 0)
            && files' == files[i := files[i].(typ := 0, bytes := [])]
  {
    hide Meanings, Entries;
    One(files, Op.Free(i));
    ViewFree(files, i);
  }

  /** ialloc and the first count. */
  lemma {:induction false} NodeView(files: seq<FileVal>, typ: FsState.Short)
    requires Neat(files) && |files| > 0 && typ != 0 && FirstFree(files, 1) < |files|
    ensures var i := FirstFree(files, 1);
            var files' := All(files, [Alloc(typ)] + [Relink(i, 1)]);
            && Neat(files') && View(files') == View(files)[i := Inode(KindOf(typ), 1, [])]
            && files' == files[i := FileVal(typ, 1, [])]
  {
    hide Meanings, Entries;
    var i := FirstFree(files, 1);
    One(files, Alloc(typ));
    Then(files, [Alloc(typ)], Relink(i, 1));
    ViewAlloc(files, typ);
    ViewRelink(Meaning(files, Alloc(typ)), i, 1);
  }

  /** The parent's count and the new directory's dots. */
  lemma DotsView(files: seq<FileVal>, files1: seq<FileVal>, ops: seq<Op>, d: nat, i: nat, n: FsState.Short)
    requires Neat(files1) && All(files, ops) == files1 && 0 < d < |files1| && 0 < i < |files1| && i != d
    requires files1[d].typ == T_DIR && files1[i] == FileVal(T_DIR, 1, [])
    ensures var ops' := ops + [Relink(d, n)] + [Write(i, 0, Record(i, DOT))] + [Write(i, RECORD, Record(d, DOTDOT))];
            var files' := All(files, ops');
            && Neat(files') && files' == files1[d := files1[d].(nlink := n)][i := FileVal(T_DIR, 1, files'[i].bytes)]
            && View(files') == SetCount(View(files1), d, n)[i := NewDir(i, d)]
  {
    hide Meanings, Entries, Dirent, Record, Overwrite;
    var count, dot, dotdot := Relink(d, n), Write(i, 0, Record(i, DOT)), Write(i, RECORD, Record(d, DOTDOT));
    Then(files, ops, count);
    Then(files, ops + [count], dot);
    Then(files, ops + [count] + [dot], dotdot);
    var files2 := Meaning(files1, count);
    var files3 := Meaning(files2, dot);
    ViewRelink(files1, d, n);
    ViewWrite(files2, i, 0, Record(i, DOT));
    RecordBack(i, DOT);
    assert View(files3)[i].entries == [Entry(i, DOT)];
    ViewWrite(files3, i, 1, Record(d, DOTDOT));
    RecordBack(d, DOTDOT);
    var fs, fs' := SetCount(View(files1), d, n), View(Meaning(files3, dotdot));
    assert fs'[i] == NewDir(i, d);
    assert fs' == fs[i := NewDir(i, d)];
    assert Meaning(files3, dotdot)[d] == files1[d].(nlink := n);
    assert Neat(Meaning(files3, dotdot));
  }

  lemma FreeSlotIs(files: seq<FileVal>, d: nat)
    requires Neat(files) && 0 < d < |files| && files[d].typ == T_DIR && FirstFree(files, 1) < |files|
    ensures FirstFree(files, 1) != d && |files| <= 0x1_0000
    ensures d in View(files) && View(files)[d].nlink == files[d].nlink
  {
    hide Entries;
  }

  /** Before the entry that names it is there. */
  lemma {:induction false} NewView(files: seq<FileVal>, d: nat, typ: FsState.Short)
    requires Neat(files) && 0 < d < |files| && FirstFree(files, 1) < |files|
    requires files[d].typ == T_DIR && (typ == T_DIR || typ == T_FILE)
    ensures var fs, i := View(files), FirstFree(files, 1);
            var files' := All(files, NodeOps(files, d, typ, i));
            && Neat(files') && i != d && files'[d].typ == T_DIR
            && View(files') == (if typ == T_DIR then SetCount(fs, d, Wrap(fs[d].nlink + 1))[i := NewDir(i, d)]
                                else fs[i := Inode(File, 1, [])])
            && files' == (if typ == T_DIR then files[d := files[d].(nlink := Wrap(files[d].nlink + 1))]
                                                    [i := FileVal(T_DIR, 1, files'[i].bytes)]
                          else files[i := FileVal(T_FILE, 1, [])])
  {
    hide All, Meaning, Entries, Record, FirstFree, Dirent, Neat;
    var i := FirstFree(files, 1);
    FreeSlotIs(files, d);
    NodeView(files, typ);
    if typ == T_DIR {
      var ops, n := [Alloc(typ)] + [Relink(i, 1)], Wrap(files[d].nlink + 1);
      DotsView(files, All(files, ops), ops, d, i, n);
      var f := All(files, NodeOps(files, d, typ, i))[i];
      SameTwo(files, View(files), d, i, FileVal(typ, 1, []), f, n, Inode(Dir, 1, []), NewDir(i, d));
    }
  }

  /** What inode i was in between does not matter. */
  lemma SameTwo(files: seq<FileVal>, fs: Fs, d: nat, i: nat, f: FileVal, g: FileVal, n: FsState.Short, x: Inode,
                y: Inode)
    requires d < |files| && i < |files| && d in fs && i != d
    ensures files[i := f][d := files[d].(nlink := n)][i := g] == files[d := files[d].(nlink := n)][i := g]
    ensures SetCount(fs[i := x], d, n)[i := y] == SetCount(fs, d, n)[i := y]
  {
  }

  /** What create does, file by file. */
  ghost predicate CreatedFiles(files: seq<FileVal>, files': seq<FileVal>, d: nat, typ: FsState.Short, i: nat,
                               n: FsState.Short)
  {
    && d < |files| == |files'| && i < |files|
    && files' == files[i := FileVal(typ, 1, if typ == T_DIR then files'[i].bytes else [])]
                      [d := FileVal(T_DIR, n, files'[d].bytes)]
  }

  lemma {:induction false} CreateView(files: seq<FileVal>, d: nat, name: string, typ: FsState.Short)
    requires Neat(files) && |files| > 0 && CallOk(Create(d, name, typ)) && FirstFree(files, 1) < |files|
    requires var fs, c := View(files), Create(d, name, typ); Goes(fs, c) && !Halts(fs, c)
    ensures var fs, i := View(files), FirstFree(files, 1);
            var files' := All(files, OpsOf(files, Create(d, name, typ)));
            var n := if typ == T_DIR then Wrap(fs[d].nlink + 1) else fs[d].nlink;
            && Neat(files') && i != d
            && View(files') == fs[i := if typ == T_DIR then NewDir(i, d) else Inode(File, 1, [])]
                                 [d := Inode(Dir, n, Added(fs[d].entries, name, i))]
            && CreatedFiles(files, files', d, typ, i, n)
  {
    hide All, Entries, Find, Record, Added, Slot, FirstFree, NodeOps;
    var i := FirstFree(files, 1);
    NewView(files, d, typ);
    var ops := NodeOps(files, d, typ, i);
    EntryView(files, All(files, ops), ops, d, name, i);
  }

  // ---- what they keep ----

  lemma NonePending(fs: Fs, pending: map<nat, nat>, home: Home)
    requires forall i :: Pend(pending, i) == 0
    ensures Sound(fs, pending) <==> Sound(fs, map[])
    ensures Inv(fs, pending, home) ==> Inv(fs, map[], home)
  {
    hide Tree, Namers, Solid, Shaped;
    forall i ensures Counted(fs, pending, i) <==> Counted(fs, map[], i) { assert Pend(pending, i) == 0; }
  }

  /** A count below 0 is wrong. */
  lemma Negative(fs: Fs, i: nat)
    requires Used(fs, i) && fs[i].nlink < 0
    ensures !Sound(fs, map[])
  {
    assert !Counted(fs, map[], i);
  }

  ghost predicate Good(files: seq<FileVal>, home: Home) {
    0 < |files| && Neat(files) && Inv(View(files), map[], home)
  }

  /** The files after the call are good again, unless it has put a count over the top or
      an entry in a removed directory. */
  ghost predicate Upheld(files: seq<FileVal>, c: Call, files': seq<FileVal>, home': Home) {
    if Spoils(View(files), c) then !Sound(View(files'), map[]) else Good(files', home')
  }

  lemma UnlinkGood(files: seq<FileVal>, home: Home, d: nat, name: string, last: bool)
    requires var c := Unlink(d, name, last); Good(files, home) && CallOk(c) && Goes(View(files), c)
    ensures var c := Unlink(d, name, last); Upheld(files, c, All(files, OpsOf(files, c)), home)
  {
    hide Inv, Neat, Find, Empty, View, OpsOf, All;
    var c := Unlink(d, name, last);
    var fs, i := View(files), Named(View(files), d, name);
    var k, pending := Find(fs[d].entries, name, 0), if fs[i].kind.Dir? then map[] else map[i := Pend(map[], i)];
    UnlinkView(files, home, d, name, last);
    UnlinkFacts(fs, map[], home, d, name);
    UnlinkKeeps(fs, map[], home, d, k);
    NonePending(Unlinked(fs, d, k), pending, home);
    if last && fs[i].nlink == 1 { ReclaimKeeps(Unlinked(fs, d, k), map[], home, i); }
  }

  lemma ReclaimGood(files: seq<FileVal>, home: Home, i: nat)
    requires Good(files, home) && Goes(View(files), Reclaim(i))
    ensures Upheld(files, Reclaim(i), All(files, OpsOf(files, Reclaim(i))), home)
  {
    hide Inv, Neat, View, OpsOf, All;
    ReclaimView(files, i);
    ReclaimKeeps(View(files), map[], home, i);
  }

  lemma LinkGood(files: seq<FileVal>, home: Home, i: nat, d: nat, name: string)
    requires var fs, c := View(files), Link(i, d, name); Good(files, home) && CallOk(c) && Goes(fs, c) && !Halts(fs, c)
    ensures var c := Link(i, d, name); Upheld(files, c, All(files, OpsOf(files, c)), home)
  {
    hide Inv, Sound, OpsOf, All, Added, Find, Slot, Entries;
    var fs := View(files);
    var n, fs', pending := Wrap(fs[i].nlink + 1), View(All(files, OpsOf(files, Link(i, d, name)))), map[i := 1];
    LinkView(files, i, d, name);
    if Overflows(fs, Link(i, d, name)) {
      Negative(fs', i);
    } else {
      PendKeeps(fs, map[], home, i, 1);
      assert map[][i := 1] == pending;
      LinkKeeps(SetCount(fs, i, n), pending, home, d, name, i);
      NonePending(fs', pending[i := 0], home);
    }
  }

  lemma {:induction false} CreateGood(files: seq<FileVal>, home: Home, d: nat, name: string, typ: FsState.Short)
    requires var fs, c := View(files), Create(d, name, typ);
             Good(files, home) && CallOk(c) && Goes(fs, c) && !Halts(fs, c) && FirstFree(files, 1) < |files|
    ensures var fs, c, i := View(files), Create(d, name, typ), FirstFree(files, 1);
            Upheld(files, c, All(files, OpsOf(files, c)),
                 if typ == T_DIR then home[i := (d, Slot(fs[d].entries, 0))] else home)
  {
    hide Inv, Sound, OpsOf, All, Added, Find, Slot, Entries;
    var fs, i := View(files), FirstFree(files, 1);
    var fs' := View(All(files, OpsOf(files, Create(d, name, typ))));
    CreateView(files, d, name, typ);
    if Overflows(fs, Create(d, name, typ)) {
      Negative(fs', d);
    } else {
      CreatedIs(fs, fs', d, name, KindOf(typ), i);
      CreateKeeps(fs, map[], home, d, name, KindOf(typ), i);
      NonePending(fs', if typ == T_DIR then map[] else map[i := 0], home);
      NonePending(fs', if typ == T_DIR then map[] else map[i := 0], home[i := (d, Slot(fs[d].entries, 0))]);
    }
  }

  ghost function HomeAfter(files: seq<FileVal>, home: Home, c: Call): Home
    requires |files| > 0
  {
    var fs := View(files);
    if c.Create? && Goes(fs, c) && c.typ == T_DIR then home[FirstFree(files, 1) := (c.d, Slot(fs[c.d].entries, 0))]
    else home
  }

  /** The call finds no free inode. */
  ghost predicate NoInode(files: seq<FileVal>, c: Call) {
    c.Create? && |files| > 0 && Goes(View(files), c) && FirstFree(files, 1) == |files|
  }

  ghost predicate Shows(files: seq<FileVal>, c: Call, files': seq<FileVal>)
    requires |files| > 0
  {
    var fs := View(files);
    View(files') == if Goes(fs, c) then Result(fs, c, FirstFree(files, 1)) else fs
  }

  lemma {:induction false} CreateShows(files: seq<FileVal>, d: nat, name: string, typ: FsState.Short)
    requires Neat(files) && 0 < |files| <= 0x1_0000 && CallOk(Create(d, name, typ)) && FirstFree(files, 1) < |files|
    requires var fs, c := View(files), Create(d, name, typ); Goes(fs, c) && !Halts(fs, c) && !Overflows(fs, c)
    ensures var c := Create(d, name, typ); Shows(files, c, All(files, OpsOf(files, c)))
  {
    hide All, OpsOf, Entries, Find, Slot, Added, FirstFree, Neat, CreatedFiles;
    var c := Create(d, name, typ);
    CreateView(files, d, name, typ);
    CreatedIs(View(files), View(All(files, OpsOf(files, c))), d, name, KindOf(typ), FirstFree(files, 1));
  }

  /** The operations of a call make of the directories what the call is for. */
  lemma {:induction false} CallShows(files: seq<FileVal>, home: Home, c: Call)
    requires Good(files, home) && CallOk(c) && !Halts(View(files), c) && !NoInode(files, c)
    requires !Overflows(View(files), c)
    ensures Shows(files, c, All(files, OpsOf(files, c)))
  {
    hide Inv, Meaning, Entries, Find, Slot, Added, FirstFree, Record, NodeOps, UnlinkOps;
    var fs := View(files);
    if Goes(fs, c) {
      match c
      case Unlink(d, name, last) => UnlinkView(files, home, d, name, last);
      case Create(d, name, typ) =>
        CreateShows(files, d, name, typ);
      case Link(i, d, name) => LinkView(files, i, d, name);
      case Reclaim(i) => ReclaimView(files, i);
    } else if TakesBack(fs, c) {
      TakenBackView(files, c);
    }
  }

  lemma {:induction false} CallUpholds(files: seq<FileVal>, home: Home, c: Call)
    requires Good(files, home) && CallOk(c) && !Halts(View(files), c) && !NoInode(files, c)
    ensures Upheld(files, c, All(files, OpsOf(files, c)), HomeAfter(files, home, c))
  {
    hide Inv, Meaning, Entries, Find, Slot, Added, FirstFree, Record, NodeOps, UnlinkOps, Sound;
    if Goes(View(files), c) {
      match c
      case Unlink(d, name, last) => UnlinkGood(files, home, d, name, last);
      case Create(d, name, typ) => CreateGood(files, home, d, name, typ);
      case Link(i, d, name) => LinkGood(files, home, i, d, name);
      case Reclaim(i) => ReclaimGood(files, home, i);
    } else if TakesBack(View(files), c) {
      TakenBackView(files, c);
    }
  }

  // ---- as transactions ----

  ghost predicate AllFit(sb: FsState.Super, ops: seq<Op>) { forall n :: 0 <= n < |ops| ==> OpOk(sb, ops[n]) }

  lemma UnlinkFits(sb: FsState.Super, files: seq<FileVal>, d: nat, k: nat, i: nat, last: bool)
    requires d < |files| == sb.ninodes && i < |files| && k < MOST
    ensures AllFit(sb, UnlinkOps(files, d, k, i, last))
  {
  }

  lemma CreateFits(sb: FsState.Super, files: seq<FileVal>, d: nat, k: nat, name: string, typ: FsState.Short, i: nat)
    requires d < |files| == sb.ninodes <= 0x1_0000 && i < |files| && k < MOST && typ != 0 && NameOk(name)
    ensures AllFit(sb, NodeOps(files, d, typ, i) + [Write(d, RECORD * k, Record(i, name))])
  {
    hide Record;
  }

  lemma {:induction false} OpsFit(sb: FsState.Super, files: seq<FileVal>, c: Call)
    requires 0 < |files| == sb.ninodes && Neat(files) && CallOk(c) && !Halts(View(files), c)
    ensures AllFit(sb, OpsOf(files, c))
  {
    hide Entries, Find, Slot, Record, FirstFree, UnlinkOps, NodeOps;
    var fs := View(files);
    if Goes(fs, c) && !c.Reclaim? {
      assert NeatFile(files[c.d]) && |fs[c.d].entries| == |files[c.d].bytes| / RECORD;
      match c
      case Unlink(d, name, last) =>
        UnlinkFits(sb, files, d, Find(fs[d].entries, name, 0), Named(fs, d, name), last);
      case Create(d, name, typ) =>
        var i := FirstFree(files, 1);
        if i < |files| { CreateFits(sb, files, d, Slot(fs[d].entries, 0), name, typ, i); }
      case Link(_, _, _) =>
    }
  }

  // ---- what they cost ----

  /** Most blocks an operation of a call can log, whatever the files are: a record lies in
      one block. */
  ghost function Cost(sb: FsState.Super, op: Op): nat {
    if op.Write? then 5 else if op.Free? then sb.size / FsState.BPB + 2 else 1
  }

  ghost function Costs(sb: FsState.Super, ops: seq<Op>): nat {
    if ops == [] then 0 else Costs(sb, ops[..|ops| - 1]) + Cost(sb, ops[|ops| - 1])
  }

  predicate InRecord(op: Op) { op.Write? ==> op.off % RECORD == 0 && |op.src| == RECORD }

  ghost predicate InRecords(ops: seq<Op>) { forall n :: 0 <= n < |ops| ==> InRecord(ops[n]) }

  lemma RecordCost(sb: FsState.Super, files: seq<FileVal>, op: Op)
    requires InRecord(op)
    ensures MostLogged(sb, files, op) <= Cost(sb, op)
  {
  }

  lemma {:induction false} MostCosts(sb: FsState.Super, files: seq<FileVal>, ops: seq<Op>, n: nat)
    requires n <= |ops| && InRecords(ops)
    ensures MostOf(sb, files, ops, n) <= Costs(sb, ops[..n])
  {
    if n > 0 {
      MostCosts(sb, files, ops, n - 1);
      RecordCost(sb, Meanings(files, ops, n - 1), ops[n - 1]);
      assert ops[..n][..n - 1] == ops[..n - 1];
    }
  }

  lemma CostsThen(sb: FsState.Super, ops: seq<Op>, op: Op)
    ensures Costs(sb, ops + [op]) == Costs(sb, ops) + Cost(sb, op)
  {
    assert (ops + [op])[..|ops|] == ops;
  }

  lemma CostsOne(sb: FsState.Super, op: Op)
    ensures Costs(sb, [op]) == Cost(sb, op)
  {
    CostsThen(sb, [], op);
    assert [] + [op] == [op];
  }

  lemma UnlinkCost(sb: FsState.Super, files: seq<FileVal>, d: nat, k: nat, i: nat, last: bool)
    requires d < |files| && i < |files|
    ensures InRecords(UnlinkOps(files, d, k, i, last))
    ensures Costs(sb, UnlinkOps(files, d, k, i, last)) <= 9 + sb.size / FsState.BPB
  {
    hide Costs;
    var ops := [Write(d, RECORD * k, Zeros(RECORD))];
    CostsOne(sb, ops[0]);
    if files[i].typ == T_DIR {
      CostsThen(sb, ops, Relink(d, Wrap(files[d].nlink - 1)));
      ops := ops + [Relink(d, Wrap(files[d].nlink - 1))];
    }
    CostsThen(sb, ops, Relink(i, Wrap(files[i].nlink - 1)));
    ops := ops + [Relink(i, Wrap(files[i].nlink - 1))];
    CostsThen(sb, ops, Op.Free(i));
  }

  lemma CreateCost(sb: FsState.Super, files: seq<FileVal>, d: nat, k: nat, name: string, typ: FsState.Short, i: nat)
    requires d < |files| <= 0x1_0000 && i < |files| && NameOk(name)
    ensures InRecords(NodeOps(files, d, typ, i) + [Write(d, RECORD * k, Record(i, name))])
    ensures Costs(sb, NodeOps(files, d, typ, i) + [Write(d, RECORD * k, Record(i, name))]) <= 18
  {
    hide Costs, Record;
    var ops := [Alloc(typ)];
    CostsOne(sb, ops[0]);
    CostsThen(sb, ops, Relink(i, 1));
    ops := ops + [Relink(i, 1)];
    if typ == T_DIR {
      var count := Relink(d, Wrap(files[d].nlink + 1));
      var dot, dotdot := Write(i, 0, Record(i, DOT)), Write(i, RECORD, Record(d, DOTDOT));
      CostsThen(sb, ops, count);
      CostsThen(sb, ops + [count], dot);
      CostsThen(sb, ops + [count] + [dot], dotdot);
      ops := ops + [count] + [dot] + [dotdot];
    }
    CostsThen(sb, ops, Write(d, RECORD * k, Record(i, name)));
  }

  /** A call logs at most 18 blocks, and the bitmap's if it frees a file. */
  lemma {:induction false} CallCost(sb: FsState.Super, files: seq<FileVal>, c: Call)
    requires 0 < |files| <= 0x1_0000 && CallOk(c)
    ensures MostOf(sb, files, OpsOf(files, c), |OpsOf(files, c)|) <= 18 + sb.size / FsState.BPB
  {
    hide Costs, MostOf, Entries, Find, Slot, Record, FirstFree, UnlinkOps, NodeOps;
    var fs, ops := View(files), OpsOf(files, c);
    if TakesBack(fs, c) {
      CostsOne(sb, ops[0]);
      CostsThen(sb, [ops[0]], ops[1]);
    } else if Goes(fs, c) {
      match c
      case Unlink(d, name, last) =>
        UnlinkCost(sb, files, d, Find(fs[d].entries, name, 0), Named(fs, d, name), last);
      case Create(d, name, typ) =>
        var i := FirstFree(files, 1);
        if i == |files| {
          CostsOne(sb, ops[0]);
        } else {
          CreateCost(sb, files, d, Slot(fs[d].entries, 0), name, typ, i);
        }
      case Link(_, _, _) =>
        CostsOne(sb, ops[0]);
        CostsThen(sb, [ops[0]], ops[1]);
      case Reclaim(_) =>
        CostsOne(sb, ops[0]);
    } else {
      NoCost(sb);
    }
    MostCosts(sb, files, ops, |ops|);
    assert ops[..|ops|] == ops;
  }

  lemma NoCost(sb: FsState.Super)
    ensures Costs(sb, []) == 0
  {
  }

  lemma {:induction false} NoneFree(sb: FsState.Super, files: seq<FileVal>, c: Call)
    requires 0 < |files| <= 0x1_0000 && CallOk(c) && NoInode(files, c)
    ensures StuckIn(sb, files, OpsOf(files, c))
  {
    assert Stuck(sb, Meanings(files, OpsOf(files, c), 0), OpsOf(files, c)[0]);
  }
}
