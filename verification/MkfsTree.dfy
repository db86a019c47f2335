/** mkfs's main (mkfs.c): a root directory with the files named on the command line. The
    tree it builds is sound. */
module MkfsTree {
  import opened Blocks
  import opened Dirents
  import opened FileContent
  import opened FileOps
  import opened Links
  import CrashSafety
  import DirCalls
  import DirEffects
  import FileSystem
  import FsState
  import Mkfs
  import Space

  /** A file to be put in the image, its name without the underscore. */
  datatype Source = Source(name: string, bytes: seq<Byte>)

  predicate SourceOk(x: Source) {
    NameOk(x.name) && x.name != DOT && x.name != DOTDOT && |x.bytes| <= FsState.MAXFILE * BSIZE
  }

  /** The files can be told apart, and there are inodes for them. */
  ghost predicate SourcesOk(srcs: seq<Source>, ninodes: nat) {
    && |srcs| + 2 <= ninodes <= 0x1_0000 && |srcs| + 2 <= DirCalls.MOST
    && (forall k :: 0 <= k < |srcs| ==> SourceOk(srcs[k]))
    && (forall j, k :: 0 <= j < k < |srcs| ==> srcs[j].name != srcs[k].name)
  }

  // ---- what is built ----

  /** The root directory with entries for the first n files: file k is inode k + 2. */
  function RootBytes(srcs: seq<Source>, n: nat): (r: seq<Byte>)
    requires n <= |srcs| && n + 2 <= 0x1_0000 && forall k :: 0 <= k < |srcs| ==> SourceOk(srcs[k])
    ensures |r| == RECORD * (n + 2)
  {
    if n == 0 then Record(ROOT, DOT) + Record(ROOT, DOTDOT)
    else RootBytes(srcs, n - 1) + Record(n + 1, srcs[n - 1].name)
  }

  /** The inodes when n files are in, and the root directory's content is bytes. */
  function Built(srcs: seq<Source>, n: nat, bytes: seq<Byte>, i: nat): FileVal
    requires n <= |srcs|
  {
    if i == ROOT then FileVal(T_DIR, 1, bytes)
    else if 2 <= i < n + 2 then FileVal(T_FILE, 1, srcs[i - 2].bytes)
    else FileVal(0, 0, [])
  }

  function BuiltAll(srcs: seq<Source>, n: nat, bytes: seq<Byte>, ninodes: nat): seq<FileVal>
    requires n <= |srcs|
  {
    seq(ninodes, i requires 0 <= i < ninodes => Built(srcs, n, bytes, i))
  }

  // ---- it is sound ----

  lemma EntriesAppend(a: seq<Byte>, b: seq<Byte>)
    requires |a| % RECORD == 0
    ensures Entries(a + b) == Entries(a) + Entries(b)
  {
    var n, es := |a| / RECORD, Entries(a) + Entries(b);
    assert |a + b| / RECORD == |es|;
    forall k | 0 <= k < |es| ensures Entries(a + b)[k] == es[k] {
      assert (a + b)[RECORD * k..RECORD * k + RECORD]
             == if k < n then a[RECORD * k..RECORD * k + RECORD] else b[RECORD * (k - n)..RECORD * (k - n) + RECORD];
    }
  }

  lemma OneRecord(rec: seq<Byte>)
    requires |rec| == RECORD
    ensures Entries(rec) == [Dirent(rec)]
  {
    assert rec[0..RECORD] == rec;
  }

  lemma ZeroEntries(n: nat, k: nat)
    requires k < n / RECORD
    ensures Entries(Zeros(n))[k] == ERASED
  {
    ErasedBack();
    assert Zeros(n)[RECORD * k..RECORD * k + RECORD] == Zeros(RECORD);
  }

  lemma {:induction false} RootEntries(srcs: seq<Source>, n: nat)
    requires n <= |srcs| && n + 2 <= 0x1_0000 && forall k :: 0 <= k < |srcs| ==> SourceOk(srcs[k])
    ensures var es := Entries(RootBytes(srcs, n));
            && |es| == n + 2 && es[0] == Entry(ROOT, DOT) && es[1] == Entry(ROOT, DOTDOT)
            && forall k :: 0 <= k < n ==> es[k + 2] == Entry(k + 2, srcs[k].name)
  {
    hide Entries, Record, Dirent;
    if n == 0 {
      RecordBack(ROOT, DOT);
      RecordBack(ROOT, DOTDOT);
      OneRecord(Record(ROOT, DOT));
      OneRecord(Record(ROOT, DOTDOT));
      EntriesAppend(Record(ROOT, DOT), Record(ROOT, DOTDOT));
    } else {
      RootEntries(srcs, n - 1);
      var rec := Record(n + 1, srcs[n - 1].name);
      RecordBack(n + 1, srcs[n - 1].name);
      OneRecord(rec);
      EntriesAppend(RootBytes(srcs, n - 1), rec);
    }
  }

  /** A root directory whose entry k names file k from 2 on, and nothing else. */
  ghost predicate Flat(fs: Fs, names: seq<string>) {
    && 0 !in fs && ROOT in fs && fs[ROOT].kind.Dir? && fs[ROOT].nlink == 1
    && var es := fs[ROOT].entries;
    && |es| >= |names| + 2 && es[0] == Entry(ROOT, DOT) && es[1] == Entry(ROOT, DOTDOT)
    && (forall k :: 0 <= k < |names| ==> es[k + 2] == Entry(k + 2, names[k]))
    && (forall k :: |names| + 2 <= k < |es| ==> es[k] == ERASED)
    && (forall i :: 2 <= i < |names| + 2 ==> i in fs)
    && (forall i :: i in fs && i != ROOT ==>
          fs[i] == if i < |names| + 2 then Inode(File, 1, []) else Inode(Unused, 0, []))
  }

  lemma FlatSound(fs: Fs, names: seq<string>)
    requires Flat(fs, names) && (forall j, k :: 0 <= j < k < |names| ==> names[j] != names[k])
    requires forall k :: 0 <= k < |names| ==> names[k] != DOT && names[k] != DOTDOT
    ensures Inv(fs, map[], map[])
  {
    hide Namers;
    var es := fs[ROOT].entries;
    forall k | 2 <= k < |names| + 2 ensures es[k] == Entry(k, names[k - 2]) {
      var j := k - 2;
      assert es[j + 2] == Entry(j + 2, names[j]);
    }
    forall i: nat | i in fs ensures Counted(fs, map[], i) {
      if Used(fs, i) { FlatCounted(fs, names, i); }
    }
    forall j, k | 0 <= j < k < |es| ensures Differ(es, j, k) { }
    assert Shaped(fs, ROOT);
  }

  lemma FlatCounted(fs: Fs, names: seq<string>, i: nat)
    requires Flat(fs, names) && Used(fs, i)
    requires forall k :: 0 <= k < |names| ==> names[k] != DOT && names[k] != DOTDOT
    ensures Counted(fs, map[], i)
  {
    var es := fs[ROOT].entries;
    forall d, k ensures Names(fs, d, k, i) <==> d == ROOT && k == i {
      if 2 <= k < |names| + 2 {
        var j := k - 2;
        assert es[j + 2] == Entry(j + 2, names[j]);
      }
    }
    forall x | x in Namers(fs, i) || x == (ROOT, i) ensures x in Namers(fs, i) && x == (ROOT, i) {
      InNamers(fs, i, x.0, x.1);
    }
    assert Namers(fs, i) == {(ROOT, i)};
  }

  lemma {:induction false} BuiltEntries(srcs: seq<Source>, more: nat)
    requires |srcs| + 2 <= 0x1_0000 && forall k :: 0 <= k < |srcs| ==> SourceOk(srcs[k])
    ensures var es, n := Entries(RootBytes(srcs, |srcs|) + Zeros(more)), |srcs|;
            && |es| >= n + 2 && es[0] == Entry(ROOT, DOT) && es[1] == Entry(ROOT, DOTDOT)
            && (forall k :: 0 <= k < n ==> es[k + 2] == Entry(k + 2, srcs[k].name))
            && (forall k :: n + 2 <= k < |es| ==> es[k] == ERASED)
  {
    hide Entries, RootBytes;
    var root := RootBytes(srcs, |srcs|);
    EntriesAppend(root, Zeros(more));
    RootEntries(srcs, |srcs|);
    forall k | |srcs| + 2 <= k < |Entries(root + Zeros(more))| ensures Entries(root + Zeros(more))[k] == ERASED {
      ZeroEntries(more, k - |srcs| - 2);
    }
  }

  /** The zeros that round n bytes up to a block more. */
  function Pad(n: nat): nat { BSIZE - n % BSIZE }

  /** What mkfs puts in the image. */
  ghost function Image(srcs: seq<Source>, ninodes: nat): seq<FileVal>
    requires SourcesOk(srcs, ninodes)
  {
    BuiltAll(srcs, |srcs|, RootBytes(srcs, |srcs|) + Zeros(Pad(RECORD * (|srcs| + 2))), ninodes)
  }

  function NamesOf(srcs: seq<Source>): seq<string> {
    seq(|srcs|, k requires 0 <= k < |srcs| => srcs[k].name)
  }

  lemma {:induction false} ImageFlat(srcs: seq<Source>, ninodes: nat)
    requires SourcesOk(srcs, ninodes)
    ensures Flat(View(Image(srcs, ninodes)), NamesOf(srcs))
  {
    hide Entries, RootBytes, Zeros;
    BuiltEntries(srcs, Pad(RECORD * (|srcs| + 2)));
  }

  /** It is a good tree, unless the root directory comes out too big. */
  lemma {:induction false} ImageGood(srcs: seq<Source>, ninodes: nat)
    requires SourcesOk(srcs, ninodes) && RECORD * (|srcs| + 2) % BSIZE != 0
    ensures DirCalls.Good(Image(srcs, ninodes), map[])
  {
    hide Entries, RootBytes, Inv, Flat, View;
    var files := Image(srcs, ninodes);
    ImageFlat(srcs, ninodes);
    FlatSound(View(files), NamesOf(srcs));
  }

  lemma FlatName(fs: Fs, names: seq<string>, k: nat)
    requires Flat(fs, names) && k < |names| && (forall i, j :: 0 <= i < j < |names| ==> names[i] != names[j])
    requires forall i :: 0 <= i < |names| ==> names[i] != DOT && names[i] != DOTDOT
    ensures DirEffects.Stands(fs, ROOT, names[k], k + 2)
  {
    var es := fs[ROOT].entries;
    forall j | 0 <= j < k + 2 ensures es[j].inum == 0 || es[j].name != names[k] {
      if j >= 2 {
        var i := j - 2;
        assert es[i + 2] == Entry(i + 2, names[i]);
      }
    }
    DirEffects.FindIs(es, names[k], k + 2);
  }

  /** The file is inode i, under its name in the root directory. */
  predicate Filed(files: seq<FileVal>, src: Source, i: nat) {
    i < |files| && files[i].bytes == src.bytes && DirEffects.Stands(View(files), ROOT, src.name, i)
  }

  /** Every file is there under its name. */
  lemma {:induction false} ImageNames(srcs: seq<Source>, ninodes: nat, k: nat)
    requires SourcesOk(srcs, ninodes) && k < |srcs|
    ensures Filed(Image(srcs, ninodes), srcs[k], k + 2)
  {
    hide Entries, RootBytes, Zeros, Flat, View;
    var files := Image(srcs, ninodes);
    ImageFlat(srcs, ninodes);
    FlatName(View(files), NamesOf(srcs), k);
  }

  // ---- building it ----

  /** The image holds those files so far. */
  ghost predicate Holds(img: Mkfs.Builder, files: seq<FileVal>)
    reads img
  {
    && img.Valid() && |files| == |img.inode|
    && forall i :: 0 <= i < |files| ==>
         files[i] == FileVal(img.inode[i].typ, img.inode[i].nlink, Content(img.inode[i], img.data))
  }

  lemma HeldValid(img: Mkfs.Builder, files: seq<FileVal>)
    requires Holds(img, files)
    ensures img.Valid()
  {
  }

  lemma MoreBlocks(size: nat, n: nat)
    ensures Space.BlocksFor(size) + FileSystem.NewBits(size, size, n) == Space.BlocksFor(size + n)
  {
  }

  method NewFile(img: Mkfs.Builder, typ: FsState.Short, ghost files: seq<FileVal>) returns (inum: nat)
    requires Holds(img, files) && typ != 0 && img.freeinode < |img.inode|
    modifies img
    ensures inum == old(img.freeinode) && img.freeinode == inum + 1 && img.freeblock == old(img.freeblock)
    ensures Holds(img, files[inum := FileVal(typ, 1, [])])
  {
    hide FsState.Own, NoHoles, Mkfs.Padded;
    inum := img.Ialloc(typ);
    assert |Content(img.inode[inum], img.data)| == 0;
  }

  method Append(img: Mkfs.Builder, i: nat, src: seq<Byte>, ghost files: seq<FileVal>)
    requires Holds(img, files) && i < |files| && files[i].typ != 0
    requires |files[i].bytes| + |src| <= FsState.MAXFILE * BSIZE
    requires img.freeblock + Space.BlocksFor(|files[i].bytes| + |src|)
             <= img.sb.size + Space.BlocksFor(|files[i].bytes|)
    modifies img
    ensures Holds(img, files[i := files[i].(bytes := files[i].bytes + src)]) && img.freeinode == old(img.freeinode)
    ensures img.freeblock
            == old(img.freeblock) + Space.BlocksFor(|files[i].bytes| + |src|) - Space.BlocksFor(|files[i].bytes|)
  {
    hide FsState.Own, NoHoles, Mkfs.Padded, Space.BlocksFor, FileSystem.NewBits;
    MoreBlocks(|files[i].bytes|, |src|);
    img.Iappend(i, src);
  }

  /** A file is read a block at a time. */
  method CopyIn(img: Mkfs.Builder, i: nat, src: seq<Byte>, ghost files: seq<FileVal>)
    requires Holds(img, files) && i < |files| && files[i].typ != 0 && files[i].bytes == []
    requires |src| <= FsState.MAXFILE * BSIZE && img.freeblock + Space.BlocksFor(|src|) <= img.sb.size
    modifies img
    ensures Holds(img, files[i := files[i].(bytes := src)]) && img.freeinode == old(img.freeinode)
    ensures img.freeblock == old(img.freeblock) + Space.BlocksFor(|src|)
  {
    hide Holds;
    var n := 0;
    ghost var now := files;
    assert files[i := files[i].(bytes := src[..0])] == files;
    while n < |src|
      invariant 0 <= n <= |src| && now == files[i := files[i].(bytes := src[..n])] && Holds(img, now)
      invariant img.freeinode == old(img.freeinode) && img.freeblock == old(img.freeblock) + Space.BlocksFor(n)
    {
      var m := if |src| - n < BSIZE then |src| - n else BSIZE;
      assert Space.BlocksFor(n + m) <= Space.BlocksFor(|src|);
      Append(img, i, src[n..n + m], now);
      assert src[..n] + src[n..n + m] == src[..n + m];
      now := now[i := now[i].(bytes := src[..n + m])];
      n := n + m;
    }
    assert src[..n] == src;
  }

  /** The blocks that the first n files and the root directory take. */
  function Room(srcs: seq<Source>, n: nat): nat
    requires n <= |srcs|
  {
    Space.BlocksFor(RECORD * (n + 2)) + Sum(srcs, n)
  }

  function Sum(srcs: seq<Source>, n: nat): nat
    requires n <= |srcs|
  {
    if n == 0 then 0 else Sum(srcs, n - 1) + Space.BlocksFor(|srcs[n - 1].bytes|)
  }

  lemma {:induction false} RoomGrows(srcs: seq<Source>, n: nat, m: nat)
    requires n <= m <= |srcs|
    ensures Sum(srcs, n) <= Sum(srcs, m) && Space.BlocksFor(RECORD * (n + 2)) <= Space.BlocksFor(RECORD * (m + 2))
    decreases m
  {
    if n < m { RoomGrows(srcs, n, m - 1); }
  }

  lemma BuiltFirst(srcs: seq<Source>, ninodes: nat, files: seq<FileVal>)
    requires SourcesOk(srcs, ninodes) && |files| == ninodes
    requires forall i :: 0 <= i < ninodes ==> files[i] == FileVal(0, 0, [])
    ensures var files1 := files[ROOT := FileVal(T_DIR, 1, [])];
            var files2 := files1[ROOT := files1[ROOT].(bytes := files1[ROOT].bytes + Record(ROOT, DOT))];
            files2[ROOT := files2[ROOT].(bytes := files2[ROOT].bytes + Record(ROOT, DOTDOT))]
            == BuiltAll(srcs, 0, RootBytes(srcs, 0), ninodes)
  {
    hide Record;
    assert [] + Record(ROOT, DOT) + Record(ROOT, DOTDOT) == RootBytes(srcs, 0);
  }

  lemma BuiltNext(srcs: seq<Source>, n: nat, ninodes: nat)
    requires SourcesOk(srcs, ninodes) && n < |srcs|
    ensures var i := n + 2;
            var files := BuiltAll(srcs, n, RootBytes(srcs, n), ninodes)[i := FileVal(T_FILE, 1, [])];
            var files1 := files[ROOT := files[ROOT].(bytes := files[ROOT].bytes + Record(i, srcs[n].name))];
            files1[i := files1[i].(bytes := srcs[n].bytes)] == BuiltAll(srcs, n + 1, RootBytes(srcs, n + 1), ninodes)
  {
    hide Record;
  }

  /** One file of the command line. */
  method AddFile(img: Mkfs.Builder, srcs: seq<Source>, n: nat)
    requires SourcesOk(srcs, |img.inode|) && n < |srcs| && img.freeinode == n + 2
    requires Holds(img, BuiltAll(srcs, n, RootBytes(srcs, n), |img.inode|))
    requires img.freeblock + Room(srcs, n + 1) <= img.sb.size + Room(srcs, n)
    modifies img
    ensures |img.inode| == old(|img.inode|) && img.freeinode == n + 3
    ensures Holds(img, BuiltAll(srcs, n + 1, RootBytes(srcs, n + 1), |img.inode|))
    ensures img.freeblock == old(img.freeblock) + Room(srcs, n + 1) - Room(srcs, n)
  {
    hide Record, RootBytes, Space.BlocksFor, NoHoles, FsState.Own, Mkfs.Padded;
    RoomGrows(srcs, n, n + 1);
    BuiltNext(srcs, n, |img.inode|);
    ghost var files := BuiltAll(srcs, n, RootBytes(srcs, n), |img.inode|);
    var inum := NewFile(img, T_FILE, files);
    files := files[inum := FileVal(T_FILE, 1, [])];
    var de := Record(inum, srcs[n].name);
    Append(img, ROOT, de, files);
    files := files[ROOT := files[ROOT].(bytes := files[ROOT].bytes + de)];
    CopyIn(img, inum, srcs[n].bytes, files);
  }

  /** The root directory with its dots. */
  method MakeRoot(size: nat, ninodes: nat, nlog: nat, ghost srcs: seq<Source>) returns (img: Mkfs.Builder)
    requires SourcesOk(srcs, ninodes) && Mkfs.Layout(size, ninodes, nlog).nmeta + Room(srcs, 0) <= size <= UINT
    ensures fresh(img) && img.sb == Mkfs.Layout(size, ninodes, nlog) && |img.inode| == ninodes && img.freeinode == 2
    ensures Holds(img, BuiltAll(srcs, 0, RootBytes(srcs, 0), ninodes)) && img.freeblock == img.sb.nmeta + Room(srcs, 0)
  {
    hide Record, RootBytes, FsState.Own, NoHoles, Mkfs.Padded, BuiltAll;
    img := new Mkfs.Builder(size, ninodes, nlog);
    ghost var files := seq(ninodes, _ => FileVal(0, 0, []));
    BuiltFirst(srcs, ninodes, files);
    var root := NewFile(img, T_DIR, files);
    files := files[ROOT := FileVal(T_DIR, 1, [])];
    Append(img, root, Record(ROOT, DOT), files);
    files := files[ROOT := files[ROOT].(bytes := files[ROOT].bytes + Record(ROOT, DOT))];
    Append(img, root, Record(ROOT, DOTDOT), files);
  }

  lemma LessRoom(srcs: seq<Source>, n: nat)
    requires n <= |srcs|
    ensures Room(srcs, n) <= Room(srcs, |srcs|)
  {
    RoomGrows(srcs, n, |srcs|);
  }

  /** The root directory's size rounded up. */
  method Fix(img: Mkfs.Builder, ghost files: seq<FileVal>)
    requires Holds(img, files) && ROOT < |files| && files[ROOT].typ != 0
    modifies img
    ensures |img.inode| == |files| && img.freeblock == old(img.freeblock)
    ensures var f := files[ROOT];
            if |f.bytes| % BSIZE == 0 then !NoHoles(img.inode[ROOT], img.data)
            else Holds(img, files[ROOT := f.(bytes := f.bytes + Zeros(Pad(|f.bytes|)))])
  {
    hide FsState.Own, NoHoles, Mkfs.Padded;
    img.FixRoot(ROOT);
  }

  /** mkfs's main. If the entries of the root directory fill its blocks, rounding its size
      up leaves a hole. */
  method Make(size: nat, ninodes: nat, nlog: nat, srcs: seq<Source>) returns (img: Mkfs.Builder)
    requires SourcesOk(srcs, ninodes) && Mkfs.Layout(size, ninodes, nlog).nmeta + Room(srcs, |srcs|) <= size <= UINT
    ensures fresh(img) && img.sb == Mkfs.Layout(size, ninodes, nlog) && |img.inode| == ninodes
    ensures img.freeblock == img.sb.nmeta + Room(srcs, |srcs|)
    ensures var n := RECORD * (|srcs| + 2);
            if n % BSIZE == 0 then !NoHoles(img.inode[ROOT], img.data) else Holds(img, Image(srcs, ninodes))
  {
    hide Record, RootBytes, FsState.Own, NoHoles, Mkfs.Padded, Holds, Room, Sum;
    LessRoom(srcs, 0);
    img := MakeRoot(size, ninodes, nlog, srcs);
    var n := 0;
    while n < |srcs|
      invariant 0 <= n <= |srcs| && fresh(img) && img.sb == Mkfs.Layout(size, ninodes, nlog)
      invariant |img.inode| == ninodes && img.freeinode == n + 2 && img.freeblock == img.sb.nmeta + Room(srcs, n)
      invariant Holds(img, BuiltAll(srcs, n, RootBytes(srcs, n), ninodes))
    {
      LessRoom(srcs, n + 1);
      AddFile(img, srcs, n);
      n := n + 1;
    }
    Fix(img, BuiltAll(srcs, n, RootBytes(srcs, n), ninodes));
    ghost var bytes := RootBytes(srcs, n) + Zeros(Pad(RECORD * (n + 2)));
    assert BuiltAll(srcs, n, RootBytes(srcs, n), ninodes)[ROOT := FileVal(T_DIR, 1, bytes)] == Image(srcs, ninodes);
  }
}
