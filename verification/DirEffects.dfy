/** What the calls on directories do for their callers: names, files and space. */
module DirEffects {
  import opened Blocks
  import opened DirCalls
  import opened Dirents
  import opened FileContent
  import opened FileOps
  import opened LinkCalls
  import opened Links
  import opened Space
  import FileSystem
  import FsState

  /** The name now stands for inode i in d. */
  predicate Stands(fs: Fs, d: nat, name: string, i: nat) {
    d in fs && Has(fs, d, name) && Named(fs, d, name) == i
  }

  /** d has the names it had, but for one, and they stand for what they did. */
  ghost predicate OtherNames(fs: Fs, fs': Fs, d: nat, name: string) {
    && d in fs && d in fs'
    && forall m: string, i: nat :: m != name ==> (Stands(fs', d, m, i) <==> Stands(fs, d, m, i))
  }

  /** Only those two files differ. */
  ghost predicate OnlyTwo(files: seq<FileVal>, files': seq<FileVal>, d: nat, i: nat) {
    |files'| == |files| && forall j :: 0 <= j < |files| && j != d && j != i ==> files'[j] == files[j]
  }

  /** sys_unlink has succeeded: the name is gone, and with its last link and user the file
      is gone too and its blocks are free. */
  ghost predicate UnlinkDone(sb: FsState.Super, files: seq<FileVal>, files': seq<FileVal>, d: nat, name: string, i: nat,
                             last: bool)
  {
    && d < |files| && i < |files| && i != d && OnlyTwo(files, files', d, i)
    && !(exists j: nat :: Stands(View(files'), d, name, j)) && OtherNames(View(files), View(files'), d, name)
    && files'[d].typ == T_DIR && |files'[d].bytes| == |files[d].bytes|
    && files'[d].nlink == (if files[i].typ == T_DIR then files[d].nlink - 1 else files[d].nlink)
    && if last && files[i].nlink == 1 then
         && files'[i].typ == 0 && files'[i].bytes == []
         && FreeLeft(sb, files') == FreeLeft(sb, files) + BlocksFor(|files[i].bytes|)
       else
         && files'[i] == files[i].(nlink := files'[i].nlink) && files'[i].nlink == files[i].nlink - 1
         && FreeLeft(sb, files') == FreeLeft(sb, files)
  }

  /** create has made inode i, the first that was free, and its name. */
  ghost predicate CreateDone(files: seq<FileVal>, files': seq<FileVal>, d: nat, name: string, typ: FsState.Short,
                             i: nat)
  {
    && 0 < i < |files| && d < |files| && i != d && OnlyTwo(files, files', d, i)
    && files[i].typ == 0 && (forall j :: 1 <= j < i ==> files[j].typ != 0)
    && Stands(View(files'), d, name, i) && OtherNames(View(files), View(files'), d, name)
    && files'[i].typ == typ && files'[i].nlink == 1 && files'[d].typ == T_DIR
    && (if typ == T_DIR then
          && Entries(files'[i].bytes) == [Entry(i, DOT), Entry(d, DOTDOT)]
          && files'[d].nlink == Wrap(files[d].nlink + 1)
        else files'[i].bytes == [] && files'[d].nlink == files[d].nlink)
  }

  /** sys_link has made the name. */
  ghost predicate LinkDone(files: seq<FileVal>, files': seq<FileVal>, d: nat, name: string, i: nat) {
    && i < |files| && d < |files| && i != d && OnlyTwo(files, files', d, i)
    && Stands(View(files'), d, name, i) && OtherNames(View(files), View(files'), d, name)
    && files'[i] == files[i].(nlink := Wrap(files[i].nlink + 1))
    && files'[d] == files[d].(bytes := files'[d].bytes)
  }

  /** What a call that was kept has done, by the conditions of the source. */
  ghost predicate Effect(sb: FsState.Super, files: seq<FileVal>, c: Call, files': seq<FileVal>) {
    var fs := View(files);
    match c
    case Unlink(d, name, last) =>
      if IsDir(fs, d) && name != "." && name != ".." && Has(fs, d, name)
         && CanGo(fs, d, name) then UnlinkDone(sb, files, files', d, name, Named(fs, d, name), last)
      else files' == files
    case Create(d, name, typ) =>
      if IsDir(fs, d) && !Has(fs, d, name) then exists i :: CreateDone(files, files', d, name, typ, i)
      else files' == files
    case Link(i, d, name) =>
      if Used(fs, i) && !IsDir(fs, i) && IsDir(fs, d) && !Has(fs, d, name) then LinkDone(files, files', d, name, i)
      else files' == files
    case Reclaim(i) =>
      if Used(fs, i) && fs[i].nlink == 0 then
        && files' == files[i := files[i].(typ := 0, bytes := [])]
        && FreeLeft(sb, files') == FreeLeft(sb, files) + BlocksFor(|files[i].bytes|)
      else files' == files
  }

  // ---- names ----

  lemma FindIs(es: seq<Entry>, m: string, r: nat)
    requires r <= |es| && (forall j :: 0 <= j < r ==> es[j].inum == 0 || es[j].name != m)
    requires r < |es| ==> es[r].inum != 0 && es[r].name == m
    ensures Find(es, m, 0) == r
  {
  }

  /** Erasing an entry takes its name away and no other. */
  lemma ErasedName(es: seq<Entry>, k: nat, m: string)
    requires Unique(es) && k < |es| && es[k].inum != 0
    ensures var es' := es[k := ERASED];
            if m == es[k].name then Find(es', m, 0) == |es'|
            else Find(es', m, 0) == Find(es, m, 0)
                 && (Find(es, m, 0) < |es| ==> es'[Find(es, m, 0)] == es[Find(es, m, 0)])
  {
    var es' := es[k := ERASED];
    if m == es[k].name {
      forall j | 0 <= j < |es'| ensures es'[j].inum == 0 || es'[j].name != m {
        assert j < k ==> Differ(es, j, k);
        assert k < j ==> Differ(es, k, j);
      }
      FindIs(es', m, |es'|);
    } else {
      FindIs(es', m, Find(es, m, 0));
    }
  }

  /** Adding one gives its name and takes no other away. */
  lemma AddedName(es: seq<Entry>, name: string, i: nat, m: string)
    requires Find(es, name, 0) == |es| && i != 0
    ensures var es' := Added(es, name, i);
            if m == name then Find(es', m, 0) < |es'| && es'[Find(es', m, 0)].inum == i
            else (Find(es', m, 0) < |es'| <==> Find(es, m, 0) < |es|)
                 && (Find(es, m, 0) < |es| ==>
                       Find(es', m, 0) < |es'| && es'[Find(es', m, 0)].inum == es[Find(es, m, 0)].inum)
  {
    if m == name {
      FindAdded(es, name, i);
    } else {
      var es', k := Added(es, name, i), Slot(es, 0);
      var r, r' := Find(es, m, 0), Find(es', m, 0);
      assert forall j :: 0 <= j < |es'| && j != k ==> j < |es| && es'[j] == es[j];
    }
  }

  lemma ErasedNames(fs: Fs, fs': Fs, d: nat, k: nat)
    requires d in fs && d in fs' && Unique(fs[d].entries) && k < |fs[d].entries| && fs[d].entries[k].inum != 0
    requires fs'[d].entries == fs[d].entries[k := ERASED]
    ensures OtherNames(fs, fs', d, fs[d].entries[k].name)
    ensures !(exists j: nat :: Stands(fs', d, fs[d].entries[k].name, j))
  {
    hide Find;
    var es := fs[d].entries;
    ErasedName(es, k, es[k].name);
    forall m: string, i: nat | m != es[k].name ensures Stands(fs', d, m, i) <==> Stands(fs, d, m, i) {
      ErasedName(es, k, m);
    }
  }

  lemma AddedNames(fs: Fs, fs': Fs, d: nat, name: string, i: nat)
    requires d in fs && d in fs' && !Has(fs, d, name) && i != 0
    requires fs'[d].entries == Added(fs[d].entries, name, i)
    ensures OtherNames(fs, fs', d, name) && Stands(fs', d, name, i)
  {
    hide Find, Added;
    var es := fs[d].entries;
    AddedName(es, name, i, name);
    forall m: string, j: nat | m != name ensures Stands(fs', d, m, j) <==> Stands(fs, d, m, j) {
      AddedName(es, name, i, m);
    }
  }

  // ---- space ----

  /** Only the length of file i has changed. */
  lemma {:induction false} TakenOne(files: seq<FileVal>, files': seq<FileVal>, i: nat, k: nat)
    requires |files'| == |files| && i < |files| && k <= |files|
    requires forall j :: 0 <= j < |files| && j != i ==> |files'[j].bytes| == |files[j].bytes|
    ensures Taken(files', k) == Taken(files, k)
                                + (if i < k then BlocksFor(|files'[i].bytes|) - BlocksFor(|files[i].bytes|) else 0)
  {
    hide BlocksFor;
    if k > 0 { TakenOne(files, files', i, k - 1); }
  }

  lemma NoBytes()
    ensures BlocksFor(0) == 0
  {
  }

  // ---- the calls ----

  lemma UniqueNames(fs: Fs, home: Home, d: nat)
    requires Inv(fs, map[], home) && IsDir(fs, d)
    ensures Unique(fs[d].entries)
  {
    assert Shaped(fs, d);
  }

  lemma UnlinkEffect(sb: FsState.Super, files: seq<FileVal>, home: Home, d: nat, name: string, last: bool)
    requires Good(files, home) && NameOk(name) && Goes(View(files), Unlink(d, name, last))
    ensures var c := Unlink(d, name, last); Effect(sb, files, c, All(files, OpsOf(files, c)))
  {
    hide Inv, Meaning, Entries, Find, Unique, Taken, BlocksFor, Empty;
    var c, fs := Unlink(d, name, last), View(files);
    var files', k, i := All(files, OpsOf(files, c)), Find(fs[d].entries, name, 0), Named(fs, d, name);
    UnlinkFacts(fs, map[], home, d, name);
    UniqueNames(fs, home, d);
    UnlinkView(files, home, d, name, last);
    UnlinkKeeps(fs, map[], home, d, k);
    ErasedNames(fs, View(files'), d, k);
    TakenOne(files, files', i, |files|);
    NoBytes();
  }

  lemma {:induction false} CreateEffect(sb: FsState.Super, files: seq<FileVal>, d: nat, name: string,
                                        typ: FsState.Short)
    requires Neat(files) && |files| > 0 && CallOk(Create(d, name, typ)) && FirstFree(files, 1) < |files|
    requires var fs, c := View(files), Create(d, name, typ); Goes(fs, c) && !Halts(fs, c)
    ensures var c := Create(d, name, typ); Effect(sb, files, c, All(files, OpsOf(files, c)))
  {
    hide Meaning, Entries, Find, Added, Record, NodeOps;
    var c, fs := Create(d, name, typ), View(files);
    var files', i := All(files, OpsOf(files, c)), FirstFree(files, 1);
    CreateView(files, d, name, typ);
    AddedNames(fs, View(files'), d, name, i);
    assert NodeOf(files'[i]) == View(files')[i];
    assert CreateDone(files, files', d, name, typ, i);
  }

  lemma LinkEffect(sb: FsState.Super, files: seq<FileVal>, i: nat, d: nat, name: string)
    requires Neat(files) && |files| > 0 && NameOk(name)
    requires var fs, c := View(files), Link(i, d, name); Goes(fs, c) && !Halts(fs, c)
    ensures var c := Link(i, d, name); Effect(sb, files, c, All(files, OpsOf(files, c)))
  {
    hide Meaning, Entries, Find, Added, Record;
    var c := Link(i, d, name);
    LinkView(files, i, d, name);
    AddedNames(View(files), View(All(files, OpsOf(files, c))), d, name, i);
  }

  lemma ReclaimEffect(sb: FsState.Super, files: seq<FileVal>, i: nat)
    requires Neat(files) && |files| > 0 && Goes(View(files), Reclaim(i))
    ensures Effect(sb, files, Reclaim(i), All(files, OpsOf(files, Reclaim(i))))
  {
    hide Meaning, Entries, Taken, BlocksFor;
    ReclaimView(files, i);
    TakenOne(files, All(files, OpsOf(files, Reclaim(i))), i, |files|);
    NoBytes();
  }

  lemma {:induction false} CallEffect(sb: FsState.Super, files: seq<FileVal>, home: Home, c: Call)
    requires Good(files, home) && CallOk(c) && !Halts(View(files), c) && !NoInode(files, c)
    ensures Effect(sb, files, c, All(files, OpsOf(files, c)))
  {
    hide Inv, Meaning, Entries, Find, Slot, Added, FirstFree, Record, NodeOps, UnlinkOps, UnlinkDone, LinkDone,
      CreateDone;
    var fs := View(files);
    if Goes(fs, c) {
      match c
      case Unlink(d, name, last) => UnlinkEffect(sb, files, home, d, name, last);
      case Create(d, name, typ) => CreateEffect(sb, files, d, name, typ);
      case Link(i, d, name) => LinkEffect(sb, files, i, d, name);
      case Reclaim(i) => ReclaimEffect(sb, files, i);
    } else if TakesBack(fs, c) {
      TakenBackView(files, c);
    }
  }

  // ---- when they panic ----

  /** No entry of the directory is free, and it cannot grow. */
  ghost predicate DirFull(files: seq<FileVal>, d: nat) {
    && d < |files| && |files[d].bytes| == FsState.MAXFILE * BSIZE
    && forall k :: 0 <= k < |Entries(files[d].bytes)| ==> Entries(files[d].bytes)[k].inum != 0
  }

  lemma FullIff(files: seq<FileVal>, d: nat)
    requires Neat(files) && IsDir(View(files), d)
    ensures Slot(View(files)[d].entries, 0) >= MOST <==> DirFull(files, d)
  {
    assert NeatFile(files[d]);
  }

  /** The call is to add an entry to a full directory, or to create the ".." of a removed
      directory whose parent is gone. */
  ghost predicate Hopeless(files: seq<FileVal>, c: Call) {
    var fs := View(files);
    match c
    case Create(d, name, _) =>
      IsDir(fs, d) && if Has(fs, d, name) then name == ".." && Orphan(fs, d) else DirFull(files, d)
    case Link(i, d, name) =>
      Used(fs, i) && !IsDir(fs, i) && IsDir(fs, d) && !Has(fs, d, name) && DirFull(files, d)
    case _ => false
  }

  /** Those are the calls that panic by themselves. */
  lemma HaltsIff(files: seq<FileVal>, c: Call)
    requires Neat(files)
    ensures Halts(View(files), c) <==> Hopeless(files, c)
  {
    hide Entries, Slot, Find, DirFull;
    if (c.Create? || c.Link?) && IsDir(View(files), c.d) { FullIff(files, c.d); }
  }

  /** A record needs at most two blocks: its own and an indirect one. */
  lemma RecordRoom(size: nat, off: nat)
    requires off <= size && off % RECORD == 0
    ensures BlocksFor(if off + RECORD <= size then size else off + RECORD) <= BlocksFor(size) + 2
    ensures FileSystem.NewBits(size, off, RECORD) <= 2
    ensures off + RECORD <= size ==> FileSystem.NewBits(size, off, RECORD) == 0
  {
  }

  /** One operation of a call: it leaves types alone, takes at most two blocks, and is not
      stuck if those are free. */
  lemma {:induction false} StepClear(sb: FsState.Super, files: seq<FileVal>, op: Op)
    requires (op.Write? || op.Relink?) && InRecord(op) && op.i < |files| && files[op.i].typ != 0
    ensures FreeLeft(sb, Meaning(files, op)) >= FreeLeft(sb, files) - 2
    ensures FreeLeft(sb, files) >= 2 ==> !Stuck(sb, files, op)
    ensures forall j :: 0 <= j < |files| ==> Meaning(files, op)[j].typ == files[j].typ
  {
    hide Taken, BlocksFor, FileSystem.NewBits, Overwrite;
    TakenOne(files, Meaning(files, op), op.i, |files|);
    if op.Write? && op.off <= |files[op.i].bytes| {
      RecordRoom(|files[op.i].bytes|, op.off);
      OverwriteIs(files[op.i].bytes, op.off, op.src);
    }
  }

  /** Operations on the directory and the inode of a call. */
  ghost predicate OnBoth(ops: seq<Op>, d: nat, i: nat) {
    forall n :: 0 <= n < |ops| ==>
      (ops[n].Write? || ops[n].Relink?) && InRecord(ops[n]) && (ops[n].i == d || ops[n].i == i)
  }

  lemma {:induction false} OpsClear(sb: FsState.Super, files: seq<FileVal>, ops: seq<Op>, d: nat, i: nat, n: nat)
    requires d < |files| && i < |files| && files[d].typ != 0 && files[i].typ != 0 && OnBoth(ops, d, i) && n <= |ops|
    requires FreeLeft(sb, files) >= 2 * |ops|
    ensures var files' := Meanings(files, ops, n);
            files'[d].typ != 0 && files'[i].typ != 0 && FreeLeft(sb, files') >= FreeLeft(sb, files) - 2 * n
    ensures forall m :: 0 <= m < n ==> !Stuck(sb, Meanings(files, ops, m), ops[m])
  {
    hide FreeLeft, Stuck, Meaning;
    if n > 0 {
      OpsClear(sb, files, ops, d, i, n - 1);
      StepClear(sb, Meanings(files, ops, n - 1), ops[n - 1]);
    }
  }

  lemma NoneStuck(sb: FsState.Super, files: seq<FileVal>, ops: seq<Op>, d: nat, i: nat)
    requires d < |files| && i < |files| && files[d].typ != 0 && files[i].typ != 0 && OnBoth(ops, d, i)
    requires FreeLeft(sb, files) >= 2 * |ops|
    ensures !StuckIn(sb, files, ops)
  {
    hide FreeLeft, Stuck, Meaning;
    OpsClear(sb, files, ops, d, i, |ops|);
  }
  lemma {:induction false} MeaningsCons(files: seq<FileVal>, ops: seq<Op>, n: nat)
    requires 0 < n <= |ops|
    ensures Meanings(files, ops, n) == Meanings(Meaning(files, ops[0]), ops[1..], n - 1)
  {
    hide Meaning;
    if n > 1 {
      MeaningsCons(files, ops, n - 1);
      assert ops[1..][n - 2] == ops[n - 1];
    } else {
      assert Meanings(files, ops, 0) == files;
    }
  }

  lemma ClearCons(sb: FsState.Super, files: seq<FileVal>, ops: seq<Op>)
    requires ops != [] && !Stuck(sb, files, ops[0]) && !StuckIn(sb, Meaning(files, ops[0]), ops[1..])
    ensures !StuckIn(sb, files, ops)
  {
    hide Stuck, Meaning;
    var rest, files1 := ops[1..], Meaning(files, ops[0]);
    forall n | 0 <= n < |ops| ensures !Stuck(sb, Meanings(files, ops, n), ops[n]) {
      if n > 0 {
        MeaningsCons(files, ops, n);
        assert !Stuck(sb, Meanings(files1, rest, n - 1), rest[n - 1]);
      }
    }
  }

  lemma ClearThen(sb: FsState.Super, files: seq<FileVal>, ops: seq<Op>, op: Op)
    requires !StuckIn(sb, files, ops) && !Stuck(sb, All(files, ops), op)
    ensures !StuckIn(sb, files, ops + [op])
  {
    hide Stuck, Meanings;
    forall n | 0 <= n < |ops + [op]| ensures !Stuck(sb, Meanings(files, ops + [op], n), (ops + [op])[n]) {
      Prefix(files, ops, op, n);
      assert n < |ops| ==> !Stuck(sb, Meanings(files, ops, n), ops[n]);
    }
  }

  lemma ClearNone(sb: FsState.Super, files: seq<FileVal>)
    ensures !StuckIn(sb, files, [])
  {
  }

  lemma UnparentClear(sb: FsState.Super, files: seq<FileVal>, d: nat, k: nat, i: nat)
    requires Neat(files) && d < |files| && i < |files| && files[d].typ == T_DIR && files[d].nlink > -0x8000
    requires k < |files[d].bytes| / RECORD && FreeLeft(sb, files) >= 0
    ensures var erase := [Write(d, RECORD * k, Zeros(RECORD))];
            !StuckIn(sb, files, erase) && !StuckIn(sb, files, erase + [Relink(d, files[d].nlink - 1)])
  {
    hide StuckIn, Overwrite, Taken, FreeLeft, FileSystem.NewBits;
    var erase := Write(d, RECORD * k, Zeros(RECORD));
    assert NeatFile(files[d]);
    RecordRoom(|files[d].bytes|, RECORD * k);
    ClearNone(sb, files);
    ClearThen(sb, files, [], erase);
    assert [] + [erase] == [erase];
    One(files, erase);
    ClearThen(sb, files, [erase], Relink(d, files[d].nlink - 1));
  }

  lemma UncountClear(sb: FsState.Super, files: seq<FileVal>, ops: seq<Op>, i: nat, n: FsState.Short)
    requires !StuckIn(sb, files, ops) && i < |files| && All(files, ops)[i].typ != 0
    ensures !StuckIn(sb, files, ops + [Relink(i, n)]) && !StuckIn(sb, files, ops + [Relink(i, n)] + [Op.Free(i)])
  {
    hide StuckIn, Meanings;
    ClearThen(sb, files, ops, Relink(i, n));
    Then(files, ops, Relink(i, n));
    ClearThen(sb, files, ops + [Relink(i, n)], Op.Free(i));
  }

  /** unlink erases a record in place, so it needs no block and is never stuck. */
  lemma UnlinkClear(sb: FsState.Super, files: seq<FileVal>, home: Home, d: nat, name: string, last: bool)
    requires Good(files, home) && NameOk(name) && Goes(View(files), Unlink(d, name, last)) && FreeLeft(sb, files) >= 0
    ensures !StuckIn(sb, files, OpsOf(files, Unlink(d, name, last)))
  {
    hide Inv, All, Meaning, Entries, Find, FreeLeft, StuckIn, Empty, Zeros;
    var fs := View(files);
    var k, i := Find(fs[d].entries, name, 0), Named(fs, d, name);
    UnlinkFacts(fs, map[], home, d, name);
    UnlinkKeeps(fs, map[], home, d, k);
    UnparentClear(sb, files, d, k, i);
    var erase := Write(d, RECORD * k, Zeros(RECORD));
    var ops := if files[i].typ == T_DIR then [erase] + [Relink(d, files[d].nlink - 1)] else [erase];
    UnparentView(files, d, k, i);
    UncountClear(sb, files, ops, i, files[i].nlink - 1);
  }

  lemma {:induction false} CreateClear(sb: FsState.Super, files: seq<FileVal>, d: nat, name: string, typ: FsState.Short)
    requires Neat(files) && |files| > 0 && CallOk(Create(d, name, typ)) && FirstFree(files, 1) < |files|
    requires Goes(View(files), Create(d, name, typ)) && FreeLeft(sb, files) >= 12
    ensures !StuckIn(sb, files, OpsOf(files, Create(d, name, typ)))
  {
    hide Entries, Find, Slot, Record, StuckIn, Taken, BlocksFor;
    var ops, i := OpsOf(files, Create(d, name, typ)), FirstFree(files, 1);
    var files1 := Meaning(files, Alloc(typ));
    TakenOne(files, files1, i, |files|);
    NoBytes();
    NoneStuck(sb, files1, ops[1..], d, i);
    ClearCons(sb, files, ops);
  }

  lemma LinkClear(sb: FsState.Super, files: seq<FileVal>, i: nat, d: nat, name: string)
    requires Neat(files) && |files| > 0 && NameOk(name) && Goes(View(files), Link(i, d, name))
    requires FreeLeft(sb, files) >= 4
    ensures !StuckIn(sb, files, OpsOf(files, Link(i, d, name)))
  {
    hide Entries, Find, Slot, Record, StuckIn, FreeLeft;
    NoneStuck(sb, files, OpsOf(files, Link(i, d, name)), d, i);
  }

  /** There are a dozen blocks and an inode to make an entry or a file with. */
  ghost predicate Supplied(sb: FsState.Super, files: seq<FileVal>, c: Call) {
    && (c.Create? || c.Link? ==> FreeLeft(sb, files) >= 12)
    && (c.Create? ==> exists j :: 1 <= j < |files| && files[j].typ == 0)
  }

  /** A call that changes directories is stuck only for want of an inode or of blocks, of which
      a dozen are enough; unlink and iput never are. */
  lemma {:induction false} CallClear(sb: FsState.Super, files: seq<FileVal>, home: Home, c: Call)
    requires Good(files, home) && CallOk(c) && FreeLeft(sb, files) >= 0 && Supplied(sb, files, c)
    ensures !StuckIn(sb, files, OpsOf(files, c))
  {
    hide Inv, Entries, Find, Slot, Record, StuckIn, FreeLeft, NodeOps, UnlinkOps;
    var fs := View(files);
    ClearNone(sb, files);
    if Goes(fs, c) {
      match c
      case Unlink(d, name, last) => UnlinkClear(sb, files, home, d, name, last);
      case Create(d, name, typ) => CreateClear(sb, files, d, name, typ);
      case Link(i, d, name) => LinkClear(sb, files, i, d, name);
      case Reclaim(i) =>
        ClearThen(sb, files, [], Op.Free(i));
        assert [] + [Op.Free(i)] == [Op.Free(i)];
    } else if TakesBack(fs, c) {
      NoneStuck(sb, files, OpsOf(files, c), c.i, c.i);
    }
  }

  // ---- the same calls on the tree ----

  lemma UnlinkedNode(fs: Fs, pending: map<nat, nat>, home: Home, d: nat, name: string, last: bool)
    requires Links.Inv(fs, pending, home) && Goes(fs, Unlink(d, name, last))
    ensures var i, fs' := Named(fs, d, name), Unlinked(fs, d, Find(fs[d].entries, name, 0));
            Used(fs, i) && i in fs' && fs'[i] == fs[i].(nlink := fs[i].nlink - 1)
  {
    hide Links.Inv, Find, Empty;
    UnlinkFacts(fs, pending, home, d, name);
    UnlinkKeeps(fs, pending, home, d, Find(fs[d].entries, name, 0));
  }

  /** sys_link, sys_unlink, create and iput as `LinkCalls` has them succeed in the same cases
      and make the same tree. */
  method OnTree(disk: Disk, c: Call, inum: nat) returns (ok: bool)
    requires disk.Valid() && CallOk(c)
    requires c.Create? ==> if inum == 0 then forall j :: j in disk.inodes ==> Used(disk.inodes, j)
                           else inum in disk.inodes && disk.inodes[inum].kind.Unused?
    modifies disk
    ensures ok <==> Goes(old(disk.inodes), c) && !(c.Create? && inum == 0)
    ensures disk.inodes == if ok then Result(old(disk.inodes), c, inum) else old(disk.inodes)
  {
    hide Links.Inv, Find, Added, Sound, Made, Removed, Empty;
    var fs := disk.inodes;
    match c
    case Unlink(d, name, last) =>
      if Goes(fs, c) { UnlinkedNode(fs, disk.pending, disk.home, d, name, last); }
      var r := disk.Unlink(IsDir(fs, d), d, name);
      ok := r == 0;
      if ok && last {
        var i := Named(fs, d, name);
        if disk.inodes[i].nlink == 0 { disk.Reclaim(i); }
      }
    case Create(d, name, typ) =>
      var fine, _ := disk.Create(IsDir(fs, d), d, name, KindOf(typ), inum);
      ok := fine && IsDir(fs, d) && !Has(fs, d, name);
    case Link(i, d, name) =>
      var r := disk.Link(Used(fs, i), i, IsDir(fs, d), d, name, true);
      ok := r == 0;
    case Reclaim(i) =>
      ok := Used(fs, i) && fs[i].nlink == 0;
      if ok { disk.Reclaim(i); }
  }
}
