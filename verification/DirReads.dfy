/** dirlookup, dirlink's search for a free entry, isdirempty and ialloc's search (fs.c,
    sysfile.c), reading the records of a directory off the disk one by one. */
module DirReads {
  import opened Blocks
  import opened Dirents
  import opened FileContent
  import opened FileOps
  import opened Links
  import FileSystem
  import FsState

  /** A read has changed nothing. */
  twostate predicate Same(fs: FileSystem.Fs)
    reads fs
  {
    && fs.inode == old(fs.inode) && fs.dinode == old(fs.dinode) && fs.data == old(fs.data) && fs.used == old(fs.used)
    && fs.logged == old(fs.logged) && fs.owner == old(fs.owner)
  }

  predicate IsNode(fs: FileSystem.Fs, d: nat)
    reads fs
  {
    0 < d < |fs.inode| && fs.inode[d].typ == T_DIR && fs.inode[d].size % RECORD == 0
  }

  lemma HowMany(fs: FileSystem.Fs)
    requires Mounted(fs)
    ensures |Files(fs.D())| == |fs.inode| == fs.sb.ninodes
  {
  }

  lemma FileIs(fs: FileSystem.Fs, i: nat)
    requires Mounted(fs) && i < |fs.inode|
    ensures var files := Files(fs.D());
            && |files| == |fs.inode|
            && files[i].typ == fs.inode[i].typ && files[i].nlink == fs.inode[i].nlink
            && files[i].bytes == fs.File(i) && |files[i].bytes| == fs.inode[i].size <= FsState.MAXFILE * BSIZE
  {
    FileSystem.SizeFits(fs.inode[i], fs.data);
  }

  lemma RecordAt(bytes: seq<Byte>, k: nat)
    requires |bytes| % RECORD == 0 && k < |bytes| / RECORD
    ensures RECORD * k + RECORD <= |bytes| && Entries(bytes)[k] == Dirent(bytes[RECORD * k..RECORD * k + RECORD])
  {
  }

  method ReadEntry(fs: FileSystem.Fs, d: nat, k: nat) returns (e: Entry)
    requires Mounted(fs) && IsNode(fs, d) && k < fs.inode[d].size / RECORD
    modifies fs
    ensures Mounted(fs) && Same(fs)
    ensures var es := View(Files(fs.D()))[d].entries; |es| == fs.inode[d].size / RECORD && e == es[k]
  {
    hide Content, NoHoles, Dirent, Entries, FsState.Own;
    FileIs(fs, d);
    RecordAt(fs.File(d), k);
    var r, dst := fs.Readi(d, RECORD * k, RECORD);
    e := Dirent(dst);
    FileIs(fs, d);
  }

  /** dirlookup: the entry's place and its inode, -1 if there is none. */
  method Lookup(fs: FileSystem.Fs, d: nat, name: string) returns (k: int, inum: nat)
    requires Mounted(fs) && IsNode(fs, d)
    modifies fs
    ensures Mounted(fs) && Same(fs)
    ensures var es := View(Files(fs.D()))[d].entries;
            var r := Find(es, name, 0);
            if r < |es| then k == r && inum == es[r].inum else k == -1 && inum == 0
  {
    hide Content, NoHoles, Dirent, Entries, FsState.Own;
    FileIs(fs, d);
    ghost var es := View(Files(fs.D()))[d].entries;
    k, inum := 0, 0;
    while RECORD * k < fs.inode[d].size
      invariant Mounted(fs) && Same(fs) && inum == 0
      invariant 0 <= k <= |es| == fs.inode[d].size / RECORD && Find(es, name, k) == Find(es, name, 0)
    {
      var e := ReadEntry(fs, d, k);
      if e.inum != 0 && e.name == name {
        return k, e.inum;
      }
      k := k + 1;
    }
    return -1, 0;
  }

  /** The place of dirlink's new entry. */
  method FreeSlot(fs: FileSystem.Fs, d: nat) returns (k: nat)
    requires Mounted(fs) && IsNode(fs, d)
    modifies fs
    ensures Mounted(fs) && Same(fs)
    ensures k == Slot(View(Files(fs.D()))[d].entries, 0)
  {
    hide Content, NoHoles, Dirent, Entries, FsState.Own;
    FileIs(fs, d);
    ghost var es := View(Files(fs.D()))[d].entries;
    k := 0;
    while RECORD * k < fs.inode[d].size
      invariant Mounted(fs) && Same(fs)
      invariant 0 <= k <= |es| == fs.inode[d].size / RECORD && Slot(es, k) == Slot(es, 0)
    {
      var e := ReadEntry(fs, d, k);
      if e.inum == 0 {
        return;
      }
      k := k + 1;
    }
  }

  method IsDirEmpty(fs: FileSystem.Fs, d: nat) returns (b: bool)
    requires Mounted(fs) && IsNode(fs, d)
    modifies fs
    ensures Mounted(fs) && Same(fs)
    ensures b == Empty(View(Files(fs.D()))[d].entries)
  {
    hide Content, NoHoles, Dirent, Entries, FsState.Own;
    FileIs(fs, d);
    ghost var es := View(Files(fs.D()))[d].entries;
    var k := 2;
    while RECORD * k < fs.inode[d].size
      invariant Mounted(fs) && Same(fs)
      invariant 2 <= k && |es| == fs.inode[d].size / RECORD && forall j :: 2 <= j < k && j < |es| ==> es[j].inum == 0
    {
      var e := ReadEntry(fs, d, k);
      if e.inum != 0 {
        return false;
      }
      k := k + 1;
    }
    return true;
  }

  /** ialloc's search. */
  method FreeInode(fs: FileSystem.Fs) returns (i: nat)
    requires Mounted(fs) && 0 < |fs.inode|
    ensures i == FirstFree(Files(fs.D()), 1)
  {
    hide Content, NoHoles, FsState.Own;
    ghost var files := Files(fs.D());
    i := 1;
    while i < |fs.inode|
      invariant 1 <= i <= |fs.inode| == |files| && FirstFree(files, i) == FirstFree(files, 1)
    {
      if fs.inode[i].typ == 0 {
        return;
      }
      i := i + 1;
    }
  }
}
