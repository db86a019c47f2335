/** Directories as the disk has them: 16-byte records in the content of an inode of type
    T_DIR (fs.h), and the view of all files as the directory tree of Links. */
module Dirents {
  import opened Blocks
  import opened FileContent
  import opened FileOps
  import FsState
  import opened Links

  const DIRSIZ := 14
  const RECORD := 16    // sizeof(struct dirent)
  const T_DIR: FsState.Short := 1
  const T_FILE: FsState.Short := 2

  // ---- one record ----

  /** A path element as skipelem leaves it. */
  predicate NameOk(name: string) { |name| <= DIRSIZ && forall k :: 0 <= k < |name| ==> 0 < name[k] as int < 256 }

  /** strncpy: the name, then zeros. */
  function NameBytes(name: string, n: nat): (r: seq<Byte>)
    requires |name| <= n && forall k :: 0 <= k < |name| ==> 0 < name[k] as int < 256
    ensures |r| == n
  {
    seq(n, k requires 0 <= k < n => if k < |name| then name[k] as int else 0)
  }

  /** The name that namecmp sees: up to a zero byte, or all of it. */
  function NameOf(bs: seq<Byte>): string {
    if bs == [] || bs[0] == 0 then "" else [bs[0] as char] + NameOf(bs[1..])
  }

  lemma {:induction false} NameBack(name: string, n: nat)
    requires |name| <= n && forall k :: 0 <= k < |name| ==> 0 < name[k] as int < 256
    ensures NameOf(NameBytes(name, n)) == name
  {
    if name != "" {
      NameBack(name[1..], n - 1);
      assert NameBytes(name, n)[1..] == NameBytes(name[1..], n - 1);
      assert [name[0]] + name[1..] == name;
    }
  }

  function Record(inum: nat, name: string): (r: seq<Byte>)
    requires inum < 0x1_0000 && NameOk(name)
    ensures |r| == RECORD
  {
    var two: seq<Byte> := [inum % 0x100, inum / 0x100];
    two + NameBytes(name, DIRSIZ)
  }

  function Dirent(rec: seq<Byte>): Entry
    requires |rec| == RECORD
  {
    var low: int, high: int := rec[0], rec[1];
    Entry(low + 0x100 * high, NameOf(rec[2..]))
  }

  /** What dirlink writes is what dirlookup reads. */
  lemma RecordBack(inum: nat, name: string)
    requires inum < 0x1_0000 && NameOk(name)
    ensures Dirent(Record(inum, name)) == Entry(inum, name)
  {
    NameBack(name, DIRSIZ);
    assert Record(inum, name)[2..] == NameBytes(name, DIRSIZ);
  }

  /** Where its fields lie: the number in two bytes, the low one first, then the name and
      zeros. */
  lemma RecordLayout(inum: nat, name: string)
    requires inum < 0x1_0000 && NameOk(name)
    ensures var rec := Record(inum, name);
            && rec[0] == inum % 0x100 && rec[1] == inum / 0x100
            && forall k :: 0 <= k < DIRSIZ ==> rec[2 + k] == if k < |name| then name[k] as int else 0
  {
    var rec, bytes := Record(inum, name), NameBytes(name, DIRSIZ);
    forall k | 0 <= k < DIRSIZ ensures rec[2 + k] == bytes[k] { }
  }

  lemma ErasedBack()
    ensures Dirent(Zeros(RECORD)) == ERASED
  {
  }

  // ---- one directory ----

  function Entries(bytes: seq<Byte>): (r: seq<Entry>)
    ensures |r| == |bytes| / RECORD
  {
    seq(|bytes| / RECORD, k requires 0 <= k < |bytes| / RECORD => Dirent(bytes[RECORD * k..RECORD * k + RECORD]))
  }

  /** The entries with e at place k, which may be the place past the last. */
  function Placed(es: seq<Entry>, k: nat, e: Entry): seq<Entry>
    requires k <= |es|
  {
    if k < |es| then es[k := e] else es + [e]
  }

  lemma Overwritten(bytes: seq<Byte>, k: nat, rec: seq<Byte>)
    requires |bytes| % RECORD == 0 && k <= |bytes| / RECORD && |rec| == RECORD
    ensures RECORD * k <= |bytes|
    ensures var bytes' := Overwrite(bytes, RECORD * k, rec);
            && |bytes'| == (if k < |bytes| / RECORD then |bytes| else |bytes| + RECORD)
            && forall p :: 0 <= p < |bytes'| ==>
                 bytes'[p] == if RECORD * k <= p < RECORD * k + RECORD then rec[p - RECORD * k] else bytes[p]
  {
  }

  lemma RecordOf(bytes: seq<Byte>, bytes': seq<Byte>, k: nat, rec: seq<Byte>, j: nat)
    requires |rec| == RECORD && RECORD * j + RECORD <= |bytes'| && (j != k ==> RECORD * j + RECORD <= |bytes|)
    requires forall p :: 0 <= p < |bytes'| && (p < RECORD * k || RECORD * k + RECORD <= p) ==>
               p < |bytes| && bytes'[p] == bytes[p]
    requires forall p :: RECORD * k <= p < RECORD * k + RECORD && p < |bytes'| ==> bytes'[p] == rec[p - RECORD * k]
    ensures bytes'[RECORD * j..RECORD * j + RECORD] == if j == k then rec else bytes[RECORD * j..RECORD * j + RECORD]
  {
  }

  /** Writing a record changes one entry, or adds one. */
  lemma WriteRecord(bytes: seq<Byte>, k: nat, rec: seq<Byte>)
    requires |bytes| % RECORD == 0 && k <= |bytes| / RECORD && |rec| == RECORD
    ensures RECORD * k <= |bytes| && |Overwrite(bytes, RECORD * k, rec)| % RECORD == 0
    ensures |Overwrite(bytes, RECORD * k, rec)| <= |bytes| || |Overwrite(bytes, RECORD * k, rec)| == RECORD * k + RECORD
    ensures Entries(Overwrite(bytes, RECORD * k, rec)) == Placed(Entries(bytes), k, Dirent(rec))
  {
    hide Overwrite, Dirent;
    Overwritten(bytes, k, rec);
    var bytes', es := Overwrite(bytes, RECORD * k, rec), Placed(Entries(bytes), k, Dirent(rec));
    assert |Entries(bytes')| == |es|;
    forall j | 0 <= j < |es| ensures Entries(bytes')[j] == es[j] {
      RecordOf(bytes, bytes', k, rec, j);
    }
  }

  // ---- all of them ----

  function KindOf(typ: FsState.Short): Kind { if typ == 0 then Unused else if typ == T_DIR then Dir else File }

  function NodeOf(f: FileVal): Inode {
    if f.typ == 0 then Inode(Unused, 0, [])
    else Inode(KindOf(f.typ), f.nlink, if f.typ == T_DIR then Entries(f.bytes) else [])
  }

  /** The tree that the files are. Inode 0 is not used. */
  function View(files: seq<FileVal>): Fs {
    map i: nat | 0 < i < |files| :: NodeOf(files[i])
  }

  /** A directory is whole records, as many as a file may hold. */
  predicate NeatFile(f: FileVal) {
    f.typ == T_DIR ==> |f.bytes| % RECORD == 0 && |f.bytes| <= FsState.MAXFILE * BSIZE
  }

  /** Every directory is, and inode numbers fit in a record. */
  ghost predicate Neat(files: seq<FileVal>) {
    |files| <= 0x1_0000 && forall i :: 0 <= i < |files| ==> NeatFile(files[i])
  }

  lemma ViewRelink(files: seq<FileVal>, i: nat, n: FsState.Short)
    requires Neat(files) && 0 < i < |files| && files[i].typ != 0
    ensures var files' := Meaning(files, Relink(i, n));
            Neat(files') && View(files') == SetCount(View(files), i, n)
  {
  }

  lemma ViewWrite(files: seq<FileVal>, d: nat, k: nat, rec: seq<Byte>)
    requires Neat(files) && 0 < d < |files| && files[d].typ == T_DIR && |rec| == RECORD
    requires k <= |files[d].bytes| / RECORD && RECORD * k + RECORD <= FsState.MAXFILE * BSIZE
    ensures var files', es := Meaning(files, Write(d, RECORD * k, rec)), View(files)[d].entries;
            Neat(files') && k <= |es| && View(files') == SetEntries(View(files), d, Placed(es, k, Dirent(rec)))
  {
    hide Entries, Dirent, Overwrite;
    WriteRecord(files[d].bytes, k, rec);
  }

  lemma {:induction false} ViewAlloc(files: seq<FileVal>, typ: FsState.Short)
    requires Neat(files) && typ != 0 && |files| > 0 && FirstFree(files, 1) < |files|
    ensures var files', i := Meaning(files, Alloc(typ)), FirstFree(files, 1);
            && Neat(files') && View(files') == View(files)[i := Inode(KindOf(typ), 0, [])]
            && files'[i] == FileVal(typ, 0, [])
  {
    hide Dirent;
  }

  lemma ViewFree(files: seq<FileVal>, i: nat)
    requires Neat(files) && 0 < i < |files|
    ensures var files' := Meaning(files, Free(i));
            Neat(files') && View(files') == View(files)[i := Inode(Unused, 0, [])]
  {
    hide Dirent;
  }
}
