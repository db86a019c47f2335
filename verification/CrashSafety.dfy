/** The file system over the log, with crashes: whatever operations run and wherever
    the machine stops, the disk holds exactly the operations whose transactions
    committed, and it can be mounted again. */
module CrashSafety {
  import opened Blocks
  import opened DiskFormat
  import opened FileContent
  import opened FileOps
  import opened FileSystem
  import opened FsState
  import opened LogSpec
  import opened Params
  import opened Sets
  import Log
  import Mkfs

  // ---- transactions ----

  /** The log of a disk with that super block. */
  ghost function LogArea(sb: Super): Area { Area(sb.logstart, sb.nlog, Log.Listed, Log.Header) }

  lemma AreaFine(sb: Super)
    requires LayoutOk(sb) && 0 < sb.nlog && sb.size <= UINT
    ensures AreaOk(LogArea(sb), sb.size)
  {
    forall h, bs | Numbers(bs) ensures Log.Listed(Log.Header(h, bs)) == bs { Log.HeaderRoundTrip(h, bs); }
  }

  /** The elements of a set, in some order. */
  ghost function Listing(s: set<nat>): (r: seq<nat>)
    ensures |r| == |s| && (forall x :: x in r <==> x in s) && NoDup(r)
    decreases |s|
  {
    if s == {} then [] else
    var x :| x in s;
    var r := Listing(s - {x});
    assert forall i :: 0 <= i < |r| ==> r[i] in r;
    r + [x]
  }

  ghost predicate BeyondLog(sb: Super, d: OnDisk, bs: seq<nat>) {
    forall i :: 0 <= i < |bs| ==> sb.inodestart <= bs[i] < |d.data|
  }

  /** What commit is given: the blocks logged, as they are now. */
  ghost function TxnOf(sb: Super, d: OnDisk, bs: seq<nat>): Txn
    requires BeyondLog(sb, d, bs)
  {
    Txn(bs, seq(|bs|, i requires 0 <= i < |bs| => BlockOf(sb, d, bs[i])))
  }

  /** How many blocks a transaction may log: they and the header fit the log area, and
      there is a buffer left for commit. */
  function Capacity(sb: Super): int { Min(LOGSIZE, Min(sb.nlog - 1, NBUF - 1)) }

  function Min(x: int, y: int): int { if x < y then x else y }

  /** It is what one transaction of the journal can take: log_write's two tests pass for the
      last of n blocks, and commit finds a buffer. */
  lemma CapacityIs(sb: Super, n: nat)
    requires n > 0
    ensures n <= Capacity(sb) <==> n - 1 < LOGSIZE && n - 1 < sb.nlog - 1 && n < NBUF
  {
  }

  /** The disk holds the file system d, and its log is empty. */
  ghost predicate Ready(sb: Super, disk: seq<Block>, d: OnDisk) {
    && LayoutOk(sb) && |disk| == sb.size && AreaOk(LogArea(sb), sb.size)
    && Log.Listed(disk[sb.logstart]) == [] && Stored(sb, disk, d)
  }

  lemma TxnFits(sb: Super, d: OnDisk, logged: set<nat>)
    requires LayoutOk(sb) && |d.data| == sb.size && |logged| <= Capacity(sb)
    requires forall b :: b in logged ==> sb.inodestart <= b < |d.data|
    ensures BeyondLog(sb, d, Listing(logged)) && TxnOk(LogArea(sb), sb.size, TxnOf(sb, d, Listing(logged)))
  {
    hide BlockOf, Listing;
    var bs := Listing(logged);
    forall i | 0 <= i < |bs| ensures sb.inodestart <= bs[i] < |d.data| { assert bs[i] in logged; }
  }

  /** Installing the logged blocks makes the old disk the new one. */
  lemma TxnIsChange(sb: Super, disk: seq<Block>, d: OnDisk, d': OnDisk, bs: seq<nat>, logged: set<nat>)
    requires Stored(sb, disk, d) && Covered(sb, d, {}, d', logged) && (forall b :: b in logged ==> b in bs)
    requires BeyondLog(sb, d', bs) && TxnOk(LogArea(sb), |disk|, TxnOf(sb, d', bs))
    ensures Stored(sb, Updated(disk, TxnOf(sb, d', bs)), d')
  {
    hide BlockOf, Updated;
    var t := TxnOf(sb, d', bs);
    UpdatedAt(LogArea(sb), disk, t);
    forall b | sb.inodestart <= b < |disk| ensures Updated(disk, t)[b] == BlockOf(sb, d', b) {
      if b in bs {
        var i :| 0 <= i < |bs| && bs[i] == b;
        assert t.data[i] == BlockOf(sb, d', b);
      } else {
        UnloggedSame(sb, d, {}, d', logged, b);
      }
    }
  }

  /** How the machine goes on from the end of an operation: it lives, or it stops
      after k of commit's writes, and recovery is cut short some times before it
      completes. */
  datatype Fate = Lives | Stops(k: nat, crashes: seq<nat>)

  ghost function EventOf(t: Txn, fate: Fate): Event {
    match fate
    case Lives => Commit(t)
    case Stops(k, crashes) => Crash(t, k, crashes)
  }

  /** The header is write number n + 1 of a commit of n blocks. */
  predicate Survives(n: nat, fate: Fate) { fate.Lives? || fate.k > n }

  /** A transaction through the log: the disk then holds the new file system if the
      header was written, else the old one. */
  lemma OneTxn(sb: Super, disk: seq<Block>, d: OnDisk, d': OnDisk, bs: seq<nat>, logged: set<nat>, fate: Fate)
    requires Ready(sb, disk, d) && Covered(sb, d, {}, d', logged) && (forall b :: b in logged ==> b in bs)
    requires BeyondLog(sb, d', bs) && TxnOk(LogArea(sb), |disk|, TxnOf(sb, d', bs))
    ensures Ready(sb, After(LogArea(sb), disk, EventOf(TxnOf(sb, d', bs), fate)),
                  if Survives(|bs|, fate) then d' else d)
  {
    hide Updated, After, BlockOf, Covered;
    var a, t := LogArea(sb), TxnOf(sb, d', bs);
    EventEffect(a, disk, disk, EventOf(t, fate));
    TxnIsChange(sb, disk, d, d', bs, logged);
    hide TxnOk;
  }

  // ---- the machine ----

  /** What became of an operation: its transaction is on disk, was lost with the
      machine, or was never committed because the kernel panicked. */
  datatype Outcome = Kept | Lost | Panic

  ghost function FirstDisk(sb: Super, d: OnDisk): seq<Block> {
    seq(|d.data|, b requires 0 <= b < |d.data| => if b < sb.inodestart then ZERO_BLOCK else BlockOf(sb, d, b))
  }

  ghost predicate Blank(sb: Super, d: OnDisk) {
    forall b :: 0 <= b < sb.nmeta && b < |d.data| ==> d.data[b] == ZERO_BLOCK
  }

  lemma FirstReady(sb: Super, d: OnDisk)
    requires LayoutOk(sb) && 0 < sb.nlog && |d.data| == sb.size <= UINT
    ensures Ready(sb, FirstDisk(sb, d), d)
  {
    hide BlockOf, Log.Header;
    AreaFine(sb);
    ZeroBlockWords(0);
  }

  /** What a kernel reads from the disk is the file system that was there. */
  lemma ReadBack(fs: Fs, disk: seq<Block>)
    requires Mounted(fs) && Blank(fs.sb, fs.D()) && Ready(fs.sb, disk, fs.D())
    ensures Load(fs.sb, disk) == fs.D() && Consistent(fs.sb, fs.D())
  {
    hide BlockOf, LoadInode, LoadBit;
    forall i | 0 <= i < |fs.dinode| ensures Fits(fs.dinode[i]) { MountedFits(fs, i); }
    LoadBack(fs.sb, disk, fs.D());
    ValidIsConsistent(fs.sb, fs.D(), fs.owner);
  }

  lemma MountedFits(fs: Fs, i: nat)
    requires Mounted(fs) && i < |fs.inode|
    ensures Fits(fs.inode[i])
  {
    var ino := fs.inode[i];
    SizeFits(ino, fs.data);
    forall k | 0 <= k < |ino.addrs| ensures ino.addrs[k] < UINT {
      if k < NDIRECT { assert Addr(ino, fs.data, k) == ino.addrs[k]; }
    }
  }

  lemma BlankKept(sb: Super, d: OnDisk, d': OnDisk, logged: set<nat>)
    requires Blank(sb, d) && Covered(sb, d, {}, d', logged)
    ensures Blank(sb, d')
  {
  }

  class Machine {
    const fs: Fs
    ghost var disk: seq<Block>

    ghost predicate Valid()
      reads this, fs
    {
      Mounted(fs) && fs.logged == {} && Blank(fs.sb, fs.D()) && Ready(fs.sb, disk, fs.D())
    }

    constructor (fs: Fs)
      requires Mounted(fs) && fs.logged == {} && Blank(fs.sb, fs.D()) && 0 < fs.sb.nlog
      ensures Valid() && this.fs == fs
    {
      this.fs := fs;
      disk := FirstDisk(fs.sb, fs.D());
      FirstReady(fs.sb, fs.D());
    }

    /** begin_op, some operations, end_op, and the fate of the machine. A panic stops
        the machine before commit has written anything; what is on disk then is what it
        comes up with again. */
    method Do(ops: seq<Op>, fate: Fate) returns (r: Outcome, ghost t: Txn)
      requires Valid() && forall n :: 0 <= n < |ops| ==> OpOk(fs.sb, ops[n])
      modifies this, fs
      ensures Valid() && Fated(fs.sb, old(Files(fs.D())), ops, fate, r, t)
      ensures if r == Kept then Files(fs.D()) == Meanings(old(Files(fs.D())), ops, |ops|) else fs.D() == old(fs.D())
      ensures disk == if r == Panic then old(disk) else After(LogArea(fs.sb), old(disk), EventOf(t, fate))
    {
      hide Files, Covered, Ready, Blank, Meanings, MostOf, StuckIn, Listing, After, BlockOf, Own, NoHoles;
      var d := OnDisk(fs.dinode, fs.used, fs.data);
      ghost var owner := fs.owner;
      OwnShaped(fs.sb, fs.inode, fs.data, fs.used, owner);
      t := Txn([], []);
      var ok := PerformAll(fs, ops);
      if !ok || |fs.logged| > Capacity(fs.sb) {
        if ok { t := Unwritten(fs.sb, d, fs.D(), fs.logged); }
        fs.Reload(d, owner);
        return Panic, t;
      }
      var n := |fs.logged|;
      t := EndOp(d, fate);
      r := Kept;
      if !Survives(n, fate) {
        fs.Reload(d, owner);
        r := Lost;
      }
    }

    /** end_op's commit of the blocks logged. */
    method EndOp(d: OnDisk, fate: Fate) returns (ghost t: Txn)
      requires Mounted(fs) && Blank(fs.sb, d) && Ready(fs.sb, disk, d)
      requires Covered(fs.sb, d, {}, fs.D(), fs.logged) && |fs.logged| <= Capacity(fs.sb)
      modifies this`disk, fs`logged
      ensures fs.logged == {} && Blank(fs.sb, fs.D()) && |t.blocks| == |old(fs.logged)| && NoDup(t.blocks)
      ensures forall b :: b in t.blocks ==> fs.sb.inodestart <= b < fs.sb.size
      ensures TxnOk(LogArea(fs.sb), fs.sb.size, t) && disk == After(LogArea(fs.sb), old(disk), EventOf(t, fate))
      ensures Ready(fs.sb, disk, if Survives(|old(fs.logged)|, fate) then fs.D() else d)
    {
      hide BlockOf, After, Listing, Own, NoHoles;
      ghost var bs := Listing(fs.logged);
      TxnFits(fs.sb, fs.D(), fs.logged);
      OneTxn(fs.sb, disk, d, fs.D(), bs, fs.logged, fate);
      BlankKept(fs.sb, d, fs.D(), fs.logged);
      t := TxnOf(fs.sb, fs.D(), bs);
      disk := After(LogArea(fs.sb), disk, EventOf(t, fate));
      fs.logged := {};
    }

    /** Crash safety of the file system. After any transactions, each of any operations
        and followed by any fate of the machine, a kernel that reads the disk finds a
        consistent file system, and its files are what the transactions kept made of
        those at the start. A transaction is kept if its header was written, and it
        gets that far unless one of its operations is stuck or it logs too much. */
    method Run(txns: seq<seq<Op>>, fates: seq<Fate>) returns (rs: seq<Outcome>, ghost ts: seq<Txn>)
      requires Valid() && |fates| == |txns| && AllOk(fs.sb, txns)
      modifies this, fs
      ensures Valid() && |rs| == |ts| == |txns|
      ensures forall n :: 0 <= n < |txns| ==> FatedAt(fs.sb, old(Files(fs.D())), txns, fates, rs, ts, n)
      ensures Load(fs.sb, disk) == fs.D() && Consistent(fs.sb, fs.D())
      ensures Files(fs.D()) == AfterAll(old(Files(fs.D())), txns, rs, |txns|)
      ensures var es := Events(fates, rs, ts, |txns|);
              EventsOk(fs.sb, es) && disk == LogSpec.Run(LogArea(fs.sb), old(disk), es)
    {
      hide Files, Ready, Meanings, Consistent, Own, NoHoles, After, Ran, Fated;
      rs, ts := [], [];
      ghost var files := Files(fs.D());
      RanNone(fs.sb, files, disk, fs.D(), txns, fates);
      while |rs| < |txns|
        invariant Valid() && |rs| == |ts| <= |txns|
        invariant Ran(fs.sb, files, old(disk), txns, fates, rs, ts, Files(fs.D()), disk)
      {
        ghost var files1, disk1 := Files(fs.D()), disk;
        var r, t := Do(txns[|rs|], fates[|rs|]);
        RanNext(fs.sb, files, old(disk), txns, fates, rs, ts, files1, disk1, r, t);
        rs, ts := rs + [r], ts + [t];
      }
      RanAll(fs.sb, files, old(disk), txns, fates, rs, ts, Files(fs.D()), disk);
      ReadBack(fs, disk);
    }

    /** filewrite with crashes: its chunks are transactions of their own, so what is on
        disk afterwards is a write of whole chunks from the start. It goes on until the
        machine stops, a chunk has no room, or all that fits the largest file is
        written. */
    method FileWrite(i: nat, off: nat, src: seq<Byte>, fate: nat -> Fate) returns (n: nat, r: Outcome)
      requires Valid() && OpOk(fs.sb, Write(i, off, src)) && fs.inode[i].typ != 0
      modifies this, fs
      ensures Valid() && n <= Accepted(old(fs.inode[i].size), off, |src|) && (n == |src| || n % MAXCHUNK == 0)
      ensures Files(fs.D()) == Upto(old(Files(fs.D())), i, off, src, n)
      ensures forall k :: 0 <= k && k + MAXCHUNK < n && k % MAXCHUNK == 0 ==> fate(k).Lives?
      ensures r == Kept ==> n == Accepted(old(fs.inode[i].size), off, |src|) || (n > 0 && fate(LastChunk(n)).Stops?)
      ensures r == Lost ==> n < |src| && fate(n).Stops? && fate(n).k <= MAXOPBLOCKS
      ensures r == Panic ==>
                n < |src| && (fs.sb.nlog <= MAXOPBLOCKS
                              || Stuck(fs.sb, Files(fs.D()), Write(i, off + n, src[n..n + Chunk(|src| - n)])))
    {
      hide Meaning, Meanings, Fated, Stuck, Ready, Blank, Own, NoHoles, After, TxnOk, Accepted, Upto, Content, Files;
      ghost var files, size := Files(fs.D()), fs.inode[i].size;
      n, r := 0, Kept;
      UptoNone(files, i, off, src);
      FilesAt(fs.D(), i);
      SizeFits(fs.inode[i], fs.data);
      while n < |src|
        invariant Valid() && n <= |src| && (n < |src| ==> n % MAXCHUNK == 0) && r == Kept && i < |files| == |fs.inode|
        invariant n > 0 ==> off <= size && off + n <= MAXFILE * BSIZE
        invariant |files[i].bytes| == size && files[i].typ != 0
        invariant Files(fs.D()) == Upto(files, i, off, src, n)
        invariant forall k :: 0 <= k < n && k % MAXCHUNK == 0 ==> fate(k).Lives?
      {
        FilesAt(fs.D(), i);
        var m := Chunk(|src| - n);
        UptoNext(files, i, off, src, n, m);
        AcceptedSoFar(size, off, |src|, n, m);
        if off + n > fs.inode[i].size || off + n + m > MAXFILE * BSIZE {
          Rejected(size, off, |src|, n, m);
          return;
        }
        ghost var files1 := Files(fs.D());
        var k := n;
        ghost var t;
        r, t := Do([Write(i, off + n, src[n..n + m])], fate(n));
        ChunkFate(fs.sb, files1, i, off + n, src[n..n + m], fate(n), r, t);
        if r == Kept { n := n + m; }
        if r != Kept || fate(k).Stops? { return; }
      }
      AcceptedAll(size, off, |src|);
    }
  }

  function Chunk(n: nat): nat { if n > MAXCHUNK then MAXCHUNK else n }

  /** The files after a write of the first n bytes of src. */
  ghost function Upto(files: seq<FileVal>, i: nat, off: nat, src: seq<Byte>, n: nat): seq<FileVal>
    requires n <= |src|
  {
    if n == 0 then files else Meaning(files, Write(i, off, src[..n]))
  }

  lemma UptoNone(files: seq<FileVal>, i: nat, off: nat, src: seq<Byte>)
    ensures Upto(files, i, off, src, 0) == files
  {
  }

  lemma FilesAt(d: OnDisk, i: nat)
    requires Whole(d) && i < |d.dinode|
    ensures |Files(d)| == |d.dinode| && Files(d)[i].typ == d.dinode[i].typ && |Files(d)[i].bytes| == d.dinode[i].size
  {
  }

  lemma UptoNext(files: seq<FileVal>, i: nat, off: nat, src: seq<Byte>, n: nat, m: nat)
    requires i < |files| && n + m <= |src| && 0 < m && (n > 0 ==> off <= |files[i].bytes| && off + n <= MAXFILE * BSIZE)
    ensures var f := Upto(files, i, off, src, n);
            && |f| == |files| && f[i].typ == files[i].typ
            && (off <= |files[i].bytes| ==> off + n <= |f[i].bytes|) && (off > |files[i].bytes| ==> f == files)
            && (off <= |files[i].bytes| && off + n + m <= MAXFILE * BSIZE ==>
                  Meaning(f, Write(i, off + n, src[n..n + m])) == Upto(files, i, off, src, n + m))
  {
    hide Overwrite;
    OverwriteNext(files[i].bytes, off, src, n, m);
    OverwriteNone(files[i].bytes, off, src);
  }

  /** A chunk fits the log. */
  lemma ChunkFate(sb: Super, files: seq<FileVal>, i: nat, off: nat, src: seq<Byte>, fate: Fate, r: Outcome, t: Txn)
    requires i < |files| && off <= |files[i].bytes| && |src| <= MAXCHUNK
    requires Fated(sb, files, [Write(i, off, src)], fate, r, t)
    ensures Meanings(files, [Write(i, off, src)], 1) == Meaning(files, Write(i, off, src))
    ensures r == Panic ==> sb.nlog <= MAXOPBLOCKS || Stuck(sb, files, Write(i, off, src))
    ensures r == Lost ==> fate.Stops? && fate.k <= MAXOPBLOCKS
  {
    hide Meaning, Stuck, TxnOk;
    ChunkFits(|files[i].bytes|, off, |src|);
    OneOp(sb, files, Write(i, off, src));
  }

  /** A transaction of one operation. */
  lemma OneOp(sb: Super, files: seq<FileVal>, op: Op)
    ensures Meanings(files, [op], 1) == Meaning(files, op) && MostOf(sb, files, [op], 1) == MostLogged(sb, files, op)
    ensures StuckIn(sb, files, [op]) <==> Stuck(sb, files, op)
  {
    hide Meaning, MostLogged, Stuck;
    assert Meanings(files, [op], 0) == files && MostOf(sb, files, [op], 0) == 0;
    assert Stuck(sb, files, op) ==> Stuck(sb, Meanings(files, [op], 0), [op][0]);
  }

  /** Where the last chunk of n bytes starts. */
  function LastChunk(n: nat): nat
    requires n > 0
  {
    (n - 1) / MAXCHUNK * MAXCHUNK
  }

  /** The chunks before n are accepted, and so is the next one if it fits. */
  lemma AcceptedSoFar(size: nat, off: nat, len: nat, n: nat, m: nat)
    requires n < len && n % MAXCHUNK == 0 && m == Chunk(len - n)
    requires n > 0 ==> off <= size && off + n <= MAXFILE * BSIZE
    ensures n <= Accepted(size, off, len) && LastChunk(n + m) == n
    ensures off <= size && off + n + m <= MAXFILE * BSIZE ==> n + m <= Accepted(size, off, len)
  {
    var room := MAXFILE * BSIZE - off;
    if off <= size && 0 <= room < len {
      if n <= room { assert n / MAXCHUNK <= room / MAXCHUNK; }
      if n + MAXCHUNK <= room { assert n / MAXCHUNK + 1 <= room / MAXCHUNK; }
    }
  }

  // ---- whole runs ----

  /** What became of a transaction that found those files: it panics if one of its
      operations is stuck; else it commits the blocks t, unless they are too many, and
      it is kept if and only if the header was written. */
  ghost predicate Fated(sb: Super, files: seq<FileVal>, ops: seq<Op>, fate: Fate, r: Outcome, t: Txn) {
    if StuckIn(sb, files, ops) then r == Panic else
    && |t.blocks| <= MostOf(sb, files, ops, |ops|) && NoDup(t.blocks)
    && (forall b :: b in t.blocks ==> sb.inodestart <= b < sb.size)
    && (r == Panic <==> |t.blocks| > Capacity(sb))
    && (r != Panic ==> TxnOk(LogArea(sb), sb.size, t) && (r == Kept <==> Survives(|t.blocks|, fate)))
  }

  /** The blocks of a transaction that is too big. */
  ghost function Unwritten(sb: Super, d: OnDisk, d': OnDisk, logged: set<nat>): (t: Txn)
    requires Covered(sb, d, {}, d', logged)
    ensures |t.blocks| == |logged| && NoDup(t.blocks)
    ensures forall b :: b in t.blocks ==> sb.inodestart <= b < |d.data|
  {
    Txn(Listing(logged), [])
  }

  ghost predicate FatedAt(sb: Super, files: seq<FileVal>, txns: seq<seq<Op>>, fates: seq<Fate>, rs: seq<Outcome>,
                          ts: seq<Txn>, n: nat)
    requires n < |txns| == |fates| && n < |rs| == |ts|
  {
    Fated(sb, AfterAll(files, txns, rs, n), txns[n], fates[n], rs[n], ts[n])
  }

  /** What the log went through: a commit or crash for each transaction that got there. */
  ghost function Events(fates: seq<Fate>, rs: seq<Outcome>, ts: seq<Txn>, n: nat): seq<Event>
    requires n <= |fates| && n <= |rs| == |ts|
  {
    if n == 0 then [] else
    Events(fates, rs, ts, n - 1) + if rs[n - 1] == Panic then [] else [EventOf(ts[n - 1], fates[n - 1])]
  }

  lemma NextFated(sb: Super, files: seq<FileVal>, txns: seq<seq<Op>>, fates: seq<Fate>, rs: seq<Outcome>, ts: seq<Txn>,
                  r: Outcome, t: Txn)
    requires |rs| == |ts| < |txns| == |fates|
    requires forall n :: 0 <= n < |rs| ==> FatedAt(sb, files, txns, fates, rs, ts, n)
    requires Fated(sb, AfterAll(files, txns, rs, |rs|), txns[|rs|], fates[|rs|], r, t)
    ensures forall n :: 0 <= n < |rs| + 1 ==> FatedAt(sb, files, txns, fates, rs + [r], ts + [t], n)
    ensures var before, ops := AfterAll(files, txns, rs, |rs|), txns[|rs|];
            AfterAll(files, txns, rs + [r], |rs| + 1) == if r == Kept then Meanings(before, ops, |ops|) else before
  {
    hide Fated;
    forall n | 0 <= n < |rs| + 1 ensures FatedAt(sb, files, txns, fates, rs + [r], ts + [t], n) {
      AfterAgrees(files, txns, rs, r, n);
      assert n < |rs| ==> FatedAt(sb, files, txns, fates, rs, ts, n);
    }
    AfterAgrees(files, txns, rs, r, |rs|);
  }

  lemma {:induction false} EventsAgree(fates: seq<Fate>, rs: seq<Outcome>, ts: seq<Txn>, r: Outcome, t: Txn, n: nat)
    requires n <= |fates| && n <= |rs| == |ts|
    ensures Events(fates, rs + [r], ts + [t], n) == Events(fates, rs, ts, n)
  {
    if n > 0 { EventsAgree(fates, rs, ts, r, t, n - 1); }
  }

  lemma NextEvent(fates: seq<Fate>, rs: seq<Outcome>, ts: seq<Txn>, r: Outcome, t: Txn)
    requires |rs| == |ts| < |fates|
    ensures var es := Events(fates, rs, ts, |rs|);
            Events(fates, rs + [r], ts + [t], |rs| + 1) == if r == Panic then es else es + [EventOf(t, fates[|rs|])]
  {
    EventsAgree(fates, rs, ts, r, t, |rs|);
    assert (rs + [r])[|rs|] == r && (ts + [t])[|rs|] == t;
  }

  lemma RunSnoc(sb: Super, disk: seq<Block>, es: seq<Event>, e: Event)
    requires |disk| == sb.size && AreaOk(LogArea(sb), sb.size) && EventsOk(sb, es) && EventOk(LogArea(sb), sb.size, e)
    ensures EventsOk(sb, es + [e])
    ensures LogSpec.Run(LogArea(sb), disk, es + [e]) == After(LogArea(sb), LogSpec.Run(LogArea(sb), disk, es), e)
  {
    hide After, TxnOk, AreaOk;
    assert (es + [e])[..|es|] == es;
  }

  /** The first |rs| transactions have led to those files and that disk. */
  ghost predicate Ran(sb: Super, files: seq<FileVal>, disk: seq<Block>, txns: seq<seq<Op>>, fates: seq<Fate>,
                      rs: seq<Outcome>, ts: seq<Txn>, files': seq<FileVal>, disk': seq<Block>) {
    && |rs| == |ts| <= |txns| == |fates| && |disk| == sb.size && AreaOk(LogArea(sb), sb.size)
    && (forall n :: 0 <= n < |rs| ==> FatedAt(sb, files, txns, fates, rs, ts, n))
    && files' == AfterAll(files, txns, rs, |rs|)
    && var es := Events(fates, rs, ts, |rs|);
    && EventsOk(sb, es) && disk' == LogSpec.Run(LogArea(sb), disk, es)
  }

  lemma RanNone(sb: Super, files: seq<FileVal>, disk: seq<Block>, d: OnDisk, txns: seq<seq<Op>>, fates: seq<Fate>)
    requires Ready(sb, disk, d) && |txns| == |fates|
    ensures Ran(sb, files, disk, txns, fates, [], [], files, disk)
  {
  }

  lemma RanNext(sb: Super, files: seq<FileVal>, disk: seq<Block>, txns: seq<seq<Op>>, fates: seq<Fate>,
                rs: seq<Outcome>, ts: seq<Txn>, files': seq<FileVal>, disk': seq<Block>, r: Outcome, t: Txn)
    requires Ran(sb, files, disk, txns, fates, rs, ts, files', disk') && |rs| < |txns|
    requires Fated(sb, files', txns[|rs|], fates[|rs|], r, t)
    ensures |disk'| == sb.size && AreaOk(LogArea(sb), sb.size) && (r != Panic ==> TxnOk(LogArea(sb), sb.size, t))
    ensures var ops, e := txns[|rs|], EventOf(t, fates[|rs|]);
            var files2 := if r == Kept then Meanings(files', ops, |ops|) else files';
            var disk2 := if r == Panic then disk' else After(LogArea(sb), disk', e);
            Ran(sb, files, disk, txns, fates, rs + [r], ts + [t], files2, disk2)
  {
    hide After, TxnOk, AreaOk, LogSpec.Run, FatedAt, Meanings, MostOf, StuckIn, AfterAll, Events;
    NextFated(sb, files, txns, fates, rs, ts, r, t);
    NextEvent(fates, rs, ts, r, t);
    if r != Panic { RunSnoc(sb, disk, Events(fates, rs, ts, |rs|), EventOf(t, fates[|rs|])); }
  }

  lemma RanAll(sb: Super, files: seq<FileVal>, disk: seq<Block>, txns: seq<seq<Op>>, fates: seq<Fate>,
               rs: seq<Outcome>, ts: seq<Txn>, files': seq<FileVal>, disk': seq<Block>)
    requires Ran(sb, files, disk, txns, fates, rs, ts, files', disk') && |rs| == |txns|
    ensures forall n :: 0 <= n < |txns| ==> FatedAt(sb, files, txns, fates, rs, ts, n)
    ensures files' == AfterAll(files, txns, rs, |txns|)
    ensures var es := Events(fates, rs, ts, |txns|);
            EventsOk(sb, es) && disk' == LogSpec.Run(LogArea(sb), disk, es)
  {
  }

  ghost predicate EventsOk(sb: Super, es: seq<Event>) {
    forall i :: 0 <= i < |es| ==> EventOk(LogArea(sb), sb.size, es[i])
  }

  ghost predicate AllOk(sb: Super, txns: seq<seq<Op>>) {
    forall m, n :: 0 <= m < |txns| && 0 <= n < |txns[m]| ==> OpOk(sb, txns[m][n])
  }

  /** The files after the first n transactions, of which only those kept count. */
  ghost function AfterAll(files: seq<FileVal>, txns: seq<seq<Op>>, rs: seq<Outcome>, n: nat): seq<FileVal>
    requires n <= |txns| && n <= |rs|
  {
    if n == 0 then files
    else
      var before := AfterAll(files, txns, rs, n - 1);
      if rs[n - 1] == Kept then Meanings(before, txns[n - 1], |txns[n - 1]|) else before
  }

  lemma {:induction false} AfterAgrees(files: seq<FileVal>, txns: seq<seq<Op>>, rs: seq<Outcome>, r: Outcome, n: nat)
    requires n <= |txns| && n <= |rs|
    ensures AfterAll(files, txns, rs + [r], n) == AfterAll(files, txns, rs, n)
  {
    if n > 0 { AfterAgrees(files, txns, rs, r, n - 1); }
  }

  /** The machine started on the image that mkfs has made. */
  method Boot(img: Mkfs.Builder) returns (m: Machine)
    requires img.Valid() && img.freeblock < BSIZE * 8 && 0 < img.sb.nlog
    ensures m.Valid() && fresh(m) && fresh(m.fs) && m.fs.sb == img.sb && m.fs.inode == img.inode
            && m.fs.data == img.data
  {
    var fs := Mkfs.Mount(img);
    m := new Machine(fs);
  }

  /** All of it: mkfs, boot, and any run of operations and crashes. */
  method RunImage(img: Mkfs.Builder, txns: seq<seq<Op>>, fates: seq<Fate>)
    returns (m: Machine, rs: seq<Outcome>, ghost ts: seq<Txn>)
    requires img.Valid() && img.freeblock < BSIZE * 8 && 0 < img.sb.nlog && |fates| == |txns| && AllOk(img.sb, txns)
    ensures m.Valid() && m.fs.sb == img.sb && |rs| == |ts| == |txns| && Whole(ImageOf(img))
    ensures forall n :: 0 <= n < |txns| ==> FatedAt(img.sb, Files(ImageOf(img)), txns, fates, rs, ts, n)
    ensures Load(img.sb, m.disk) == m.fs.D() && Consistent(img.sb, m.fs.D())
    ensures Files(m.fs.D()) == AfterAll(Files(ImageOf(img)), txns, rs, |txns|)
  {
    hide AfterAll, Consistent, Ready, Own, NoHoles, FatedAt;
    m := Boot(img);
    SameFiles(m.fs.D(), ImageOf(img));
    rs, ts := m.Run(txns, fates);
  }

  ghost function ImageOf(img: Mkfs.Builder): OnDisk
    reads img
  {
    OnDisk(img.inode, Mkfs.Bits(img.sb.size, img.freeblock), img.data)
  }

  lemma SameFiles(d: OnDisk, d': OnDisk)
    requires Whole(d) && d'.dinode == d.dinode && d'.data == d.data
    ensures Whole(d') && Files(d') == Files(d)
  {
  }
}
