/** What the operations of the file system mean for the files: bytes and link counts by
    inode number, and nothing about blocks. */
module FileOps {
  import opened Blocks
  import opened FileContent
  import opened FileSystem
  import opened FsState
  import opened Sets
  import opened Space

  /** A file as its users see it. */
  datatype FileVal = FileVal(typ: Short, nlink: Short, bytes: seq<Byte>)

  ghost predicate Whole(d: OnDisk) { forall i :: 0 <= i < |d.dinode| ==> NoHoles(d.dinode[i], d.data) }

  ghost function FileOf(d: OnDisk, i: nat): FileVal
    requires Whole(d) && i < |d.dinode|
  {
    FileVal(d.dinode[i].typ, d.dinode[i].nlink, Content(d.dinode[i], d.data))
  }

  ghost function Files(d: OnDisk): seq<FileVal>
    requires Whole(d)
  {
    seq(|d.dinode|, i requires 0 <= i < |d.dinode| => FileOf(d, i))
  }

  /** What the calls do to inodes: writei, a new link count with iupdate, ialloc, and
      iput's freeing of an inode. */
  datatype Op =
    | Write(i: nat, off: nat, src: seq<Byte>)
    | Relink(i: nat, nlink: Short)
    | Alloc(typ: Short)
    | Free(i: nat)

  /** The arguments are of their C types, and name inodes there are. */
  predicate OpOk(sb: Super, op: Op) {
    match op
    case Write(i, off, src) => i < sb.ninodes && off < UINT && |src| < UINT
    case Alloc(typ) => typ != 0
    case _ => op.i < sb.ninodes
  }

  /** The first free inode from k on. */
  function FirstFree(files: seq<FileVal>, k: nat): (r: nat)
    requires k <= |files|
    ensures k <= r <= |files| && (forall j :: k <= j < r ==> files[j].typ != 0) && (r < |files| ==> files[r].typ == 0)
    decreases |files| - k
  {
    if k == |files| || files[k].typ == 0 then k else FirstFree(files, k + 1)
  }

  /** What an operation means for the files. */
  ghost function Meaning(files: seq<FileVal>, op: Op): (r: seq<FileVal>)
    ensures |r| == |files|
  {
    match op
    case Write(i, off, src) =>
      if i < |files| && off <= |files[i].bytes| && off + |src| <= MAXFILE * BSIZE
      then files[i := files[i].(bytes := Overwrite(files[i].bytes, off, src))] else files
    case Relink(i, n) => if i < |files| then files[i := files[i].(nlink := n)] else files
    case Alloc(typ) =>
      if |files| > 0 && FirstFree(files, 1) < |files| then files[FirstFree(files, 1) := FileVal(typ, 0, [])] else files
    case Free(i) => if i < |files| then files[i := files[i].(typ := 0, bytes := [])] else files
  }

  /** The files after the first n of the operations. */
  ghost function Meanings(files: seq<FileVal>, ops: seq<Op>, n: nat): (r: seq<FileVal>)
    requires n <= |ops|
    ensures |r| == |files|
  {
    if n == 0 then files else Meaning(Meanings(files, ops, n - 1), ops[n - 1])
  }

  // ---- what an operation needs ----

  /** The blocks the first k files take. */
  ghost function Taken(files: seq<FileVal>, k: nat): nat
    requires k <= |files|
  {
    if k == 0 then 0 else Taken(files, k - 1) + BlocksFor(|files[k - 1].bytes|)
  }

  /** The blocks that are free beside those files. */
  ghost function FreeLeft(sb: Super, files: seq<FileVal>): int { sb.size - sb.nmeta - Taken(files, |files|) }

  /** Where the source panics: on a free inode, for want of blocks, for want of
      inodes. */
  ghost predicate Stuck(sb: Super, files: seq<FileVal>, op: Op) {
    match op
    case Write(i, off, src) =>
      && i < |files|
      && (files[i].typ == 0
          || (&& off <= |files[i].bytes| && off + |src| <= MAXFILE * BSIZE
              && FreeLeft(sb, files) < NewBits(|files[i].bytes|, off, |src|)))
    case Alloc(_) => forall j :: 1 <= j < |files| ==> files[j].typ != 0
    case _ => op.i < |files| && files[op.i].typ == 0
  }

  /** One of the operations is stuck when its turn comes. */
  ghost predicate StuckIn(sb: Super, files: seq<FileVal>, ops: seq<Op>) {
    exists n :: 0 <= n < |ops| && Stuck(sb, Meanings(files, ops, n), ops[n])
  }

  /** Most blocks an operation can log. */
  ghost function MostLogged(sb: Super, files: seq<FileVal>, op: Op): nat {
    match op
    case Write(i, off, src) =>
      if i < |files| && off <= |files[i].bytes| then WriteBound(|files[i].bytes|, off, |src|) else 0
    case Free(_) => sb.size / BPB + 2
    case _ => 1
  }

  /** Most blocks the first n of the operations can log. */
  ghost function MostOf(sb: Super, files: seq<FileVal>, ops: seq<Op>, n: nat): nat
    requires n <= |ops|
  {
    if n == 0 then 0 else MostOf(sb, files, ops, n - 1) + MostLogged(sb, Meanings(files, ops, n - 1), ops[n - 1])
  }

  // ---- the operations of the file system ----

  ghost predicate Mounted(fs: Fs)
    reads fs
  {
    fs.Valid() && |fs.inode| == fs.sb.ninodes && Whole(fs.D())
  }

  /** An operation has been done: what it means, and what it has logged. */
  ghost predicate Did(sb: Super, d: OnDisk, logged: set<nat>, op: Op, d': OnDisk, logged': set<nat>) {
    && Covered(sb, d, logged, d', logged') && Whole(d) && Whole(d')
    && Files(d') == Meaning(Files(d), op) && |logged'| <= |logged| + MostLogged(sb, Files(d), op)
  }

  lemma {:induction false} TakenIs(d: OnDisk, k: nat)
    requires Whole(d) && k <= |d.dinode|
    ensures Taken(Files(d), k) == InUse(d.dinode, k)
  {
    if k > 0 { TakenIs(d, k - 1); }
  }

  /** What is free follows from the files. */
  lemma FreeLeftIs(fs: Fs)
    requires Mounted(fs)
    ensures FreeLeft(fs.sb, Files(fs.D())) == FreeCount(fs.used)
  {
    hide NoHoles, FreeCount;
    FreeIsRest(fs.sb, fs.inode, fs.data, fs.used, fs.owner);
    TakenIs(fs.D(), |fs.dinode|);
  }

  /** One file changes. */
  lemma OneFile(d: OnDisk, d': OnDisk, i: nat, v: FileVal)
    requires Whole(d) && Whole(d') && |d'.dinode| == |d.dinode| && i < |d.dinode| && FileOf(d', i) == v
    requires forall j :: 0 <= j < |d.dinode| && j != i ==> FileOf(d', j) == FileOf(d, j)
    ensures Files(d') == Files(d)[i := v]
  {
  }

  method PerformWrite(fs: Fs, i: nat, off: nat, src: seq<Byte>) returns (ok: bool)
    requires Mounted(fs) && OpOk(fs.sb, Write(i, off, src))
    modifies fs
    ensures ok <==> !Stuck(fs.sb, old(Files(fs.D())), Write(i, off, src))
    ensures ok ==> Mounted(fs) && Did(fs.sb, old(fs.D()), old(fs.logged), Write(i, off, src), fs.D(), fs.logged)
  {
    hide Content, NoHoles, Own, Covered, FreeCount, NewBits, WriteBound, Overwrite;
    if fs.inode[i].typ == 0 { return false; }
    ghost var d := fs.D();
    FreeLeftIs(fs);
    var r;
    ok, r := fs.Writei(i, off, src);
    if ok && r != -1 { OneFile(d, fs.D(), i, FileVal(fs.inode[i].typ, fs.inode[i].nlink, fs.File(i))); }
  }

  method PerformRelink(fs: Fs, i: nat, n: Short) returns (ok: bool)
    requires Mounted(fs) && i < fs.sb.ninodes
    modifies fs
    ensures ok <==> !Stuck(fs.sb, old(Files(fs.D())), Relink(i, n))
    ensures ok ==> Mounted(fs) && Did(fs.sb, old(fs.D()), old(fs.logged), Relink(i, n), fs.D(), fs.logged)
  {
    hide Content, NoHoles, Own, Covered;
    if fs.inode[i].typ == 0 { return false; }
    ghost var d := fs.D();
    fs.SetLinks(i, n);
    OneFile(d, fs.D(), i, FileVal(fs.inode[i].typ, n, fs.File(i)));
    ok := true;
  }

  lemma FewBits(sb: Super, logged0: set<nat>, logged: set<nat>, i: nat)
    requires logged <= logged0 + BitBlocks(sb) + {Iblock(sb, i)}
    ensures |logged| <= |logged0| + sb.size / BPB + 2
  {
    SubsetSize(logged, logged0 + BitBlocks(sb) + {Iblock(sb, i)});
    UnionSize(logged0, BitBlocks(sb));
    UnionSize(logged0 + BitBlocks(sb), {Iblock(sb, i)});
  }

  method PerformFree(fs: Fs, i: nat) returns (ok: bool)
    requires Mounted(fs) && i < fs.sb.ninodes
    modifies fs
    ensures ok <==> !Stuck(fs.sb, old(Files(fs.D())), Free(i))
    ensures ok ==> Mounted(fs) && Did(fs.sb, old(fs.D()), old(fs.logged), Free(i), fs.D(), fs.logged)
  {
    hide Content, NoHoles, Own, Covered, BitBlocks;
    if fs.inode[i].typ == 0 { return false; }
    ghost var d, logged := fs.D(), fs.logged;
    fs.Ifree(i);
    FewBits(fs.sb, logged, fs.logged, i);
    OneFile(d, fs.D(), i, FileVal(0, fs.inode[i].nlink, []));
    ok := true;
  }

  method PerformAlloc(fs: Fs, typ: Short) returns (ok: bool)
    requires Mounted(fs) && typ != 0
    modifies fs
    ensures ok <==> !Stuck(fs.sb, old(Files(fs.D())), Alloc(typ))
    ensures ok ==> Mounted(fs) && Did(fs.sb, old(fs.D()), old(fs.logged), Alloc(typ), fs.D(), fs.logged)
  {
    hide Content, NoHoles, Own, Covered;
    ghost var d, files := fs.D(), Files(fs.D());
    var inum;
    ok, inum := fs.Ialloc(typ);
    if ok {
      assert forall j :: 0 <= j < |files| ==> files[j].typ == d.dinode[j].typ;
      assert FirstFree(files, 1) == inum;
      OneFile(d, fs.D(), inum, FileVal(typ, 0, []));
    }
  }

  method Perform(fs: Fs, op: Op) returns (ok: bool)
    requires Mounted(fs) && OpOk(fs.sb, op)
    modifies fs
    ensures ok <==> !Stuck(fs.sb, old(Files(fs.D())), op)
    ensures ok ==> Mounted(fs) && Did(fs.sb, old(fs.D()), old(fs.logged), op, fs.D(), fs.logged)
  {
    hide Did, NoHoles, Own, FreeCount, NewBits;
    match op
    case Write(i, off, src) => ok := PerformWrite(fs, i, off, src);
    case Relink(i, n) => ok := PerformRelink(fs, i, n);
    case Alloc(typ) => ok := PerformAlloc(fs, typ);
    case Free(i) => ok := PerformFree(fs, i);
  }

  /** Operations one after the other, in one transaction. */
  method PerformAll(fs: Fs, ops: seq<Op>) returns (ok: bool)
    requires Mounted(fs) && fs.logged == {} && forall n :: 0 <= n < |ops| ==> OpOk(fs.sb, ops[n])
    modifies fs
    ensures ok <==> !StuckIn(fs.sb, old(Files(fs.D())), ops)
    ensures ok ==> Mounted(fs) && Covered(fs.sb, old(fs.D()), {}, fs.D(), fs.logged)
    ensures ok ==> Files(fs.D()) == Meanings(old(Files(fs.D())), ops, |ops|)
    ensures ok ==> |fs.logged| <= MostOf(fs.sb, old(Files(fs.D())), ops, |ops|)
  {
    hide Files, Covered, Stuck, MostLogged, Meaning, NoHoles, Own;
    ok := true;
    CoveredNone(fs.sb, fs.D(), {});
    ghost var files := Files(fs.D());
    var n := 0;
    while n < |ops|
      invariant 0 <= n <= |ops| && Mounted(fs) && Covered(fs.sb, old(fs.D()), {}, fs.D(), fs.logged)
      invariant Files(fs.D()) == Meanings(files, ops, n) && |fs.logged| <= MostOf(fs.sb, files, ops, n)
      invariant forall m :: 0 <= m < n ==> !Stuck(fs.sb, Meanings(files, ops, m), ops[m])
    {
      ghost var d, logged := fs.D(), fs.logged;
      ok := Perform(fs, ops[n]);
      if !ok { return; }
      CoveredTrans(fs.sb, old(fs.D()), {}, d, logged, fs.D(), fs.logged);
      n := n + 1;
    }
  }
}
