/** A disk with a directory tree on it: the tree stays sound through any system calls
    and any crashes. */
module Volumes {
  import opened Blocks
  import opened CrashSafety
  import opened DirCalls
  import opened DirEffects
  import opened DirReads
  import opened Dirents
  import opened FileOps
  import opened LinkCalls
  import opened Links
  import opened Params
  import DiskFormat
  import FileContent
  import FileSystem
  import FsState
  import LogSpec
  import Mkfs
  import MkfsTree

  /** Mounted, with whole directories. */
  ghost predicate Tidy(fs: FileSystem.Fs)
    reads fs
  {
    Mounted(fs) && 0 < |fs.inode| && Neat(Files(fs.D()))
  }

  lemma NodeIs(fs: FileSystem.Fs, i: nat)
    requires Tidy(fs)
    ensures var v := View(Files(fs.D()));
            && (0 < i < |fs.inode| <==> i in v) && (IsNode(fs, i) <==> IsDir(v, i))
            && (i in v ==> v[i].kind == KindOf(fs.inode[i].typ)
                           && (fs.inode[i].typ != 0 ==> v[i].nlink == fs.inode[i].nlink))
            && (IsNode(fs, i) ==> |v[i].entries| == fs.inode[i].size / RECORD)
  {
    hide FileContent.Content, FileContent.NoHoles, FsState.Own, Entries;
    if i < |fs.inode| {
      FileIs(fs, i);
      assert NeatFile(Files(fs.D())[i]);
    }
  }

  method LowerUnlink(fs: FileSystem.Fs, d: nat, name: string, last: bool) returns (ops: seq<Op>)
    requires Tidy(fs) && NameOk(name)
    modifies fs
    ensures Tidy(fs) && Same(fs) && ops == OpsOf(Files(fs.D()), Unlink(d, name, last))
  {
    hide FileContent.Content, FileContent.NoHoles, FsState.Own, Entries, Find, Empty, FileContent.Overwrite;
    NodeIs(fs, d);
    if !IsNode(fs, d) || name == DOT || name == DOTDOT {
      return [];
    }
    var k, i := Lookup(fs, d, name);
    if k < 0 {
      return [];
    }
    NodeIs(fs, i);
    if !(0 < i < |fs.inode|) {
      return [];
    }
    if fs.inode[i].typ == T_DIR {
      var empty := IsDirEmpty(fs, i);
      if !empty {
        return [];
      }
    }
    FileIs(fs, d);
    FileIs(fs, i);
    ops := [Write(d, RECORD * k, seq(RECORD, _ => 0))];
    assert seq(RECORD, _ => 0) == FileContent.Zeros(RECORD);
    if fs.inode[i].typ == T_DIR {
      ops := ops + [Relink(d, Wrap(fs.inode[d].nlink - 1))];
    }
    ops := ops + [Relink(i, Wrap(fs.inode[i].nlink - 1))];
    if last && fs.inode[i].nlink == 1 {
      ops := ops + [Op.Free(i)];
    }
  }

  method LowerCreate(fs: FileSystem.Fs, d: nat, name: string, typ: FsState.Short) returns (halts: bool, ops: seq<Op>)
    requires Tidy(fs) && CallOk(Create(d, name, typ))
    modifies fs
    ensures Tidy(fs) && Same(fs) && halts == Halts(View(Files(fs.D())), Create(d, name, typ))
    ensures !halts ==> ops == OpsOf(Files(fs.D()), Create(d, name, typ))
  {
    hide FileContent.Content, FileContent.NoHoles, FsState.Own, Entries, Find, Slot, FirstFree, Record;
    NodeIs(fs, d);
    if !IsNode(fs, d) {
      return false, [];
    }
    var k, _ := Lookup(fs, d, name);
    if k >= 0 {
      if name == DOTDOT && fs.inode[d].nlink <= 0 && fs.inode[d].size >= 2 * RECORD {
        var up := ReadEntry(fs, d, 1);
        NodeIs(fs, up.inum);
        return !(0 < up.inum < |fs.inode|) || fs.inode[up.inum].typ == 0, [];
      }
      return false, [];
    }
    var slot := FreeSlot(fs, d);
    if slot >= MOST {
      return true, [];
    }
    halts := false;
    var i := FreeInode(fs);
    if i == |fs.inode| {
      return false, [Alloc(typ)];
    }
    FileIs(fs, d);
    ops := [Alloc(typ)] + [Relink(i, 1)];
    if typ == T_DIR {
      ops := ops + [Relink(d, Wrap(fs.inode[d].nlink + 1))]
             + [Write(i, 0, Record(i, DOT))] + [Write(i, RECORD, Record(d, DOTDOT))];
    }
    ops := ops + [Write(d, RECORD * slot, Record(i, name))];
  }

  method LowerLink(fs: FileSystem.Fs, i: nat, d: nat, name: string) returns (halts: bool, ops: seq<Op>, goes: bool)
    requires Tidy(fs) && NameOk(name)
    modifies fs
    ensures Tidy(fs) && Same(fs)
    ensures var files, c := Files(fs.D()), Link(i, d, name);
            halts == Halts(View(files), c) && (!halts ==> ops == OpsOf(files, c) && goes == Goes(View(files), c))
  {
    hide FileContent.Content, FileContent.NoHoles, FsState.Own, Entries, Find, Slot, Record;
    NodeIs(fs, d);
    NodeIs(fs, i);
    if !(0 < i < |fs.inode|) || fs.inode[i].typ == 0 || fs.inode[i].typ == T_DIR {
      return false, [], false;
    }
    FileIs(fs, i);
    var n: int := fs.inode[i].nlink;
    ops := [Relink(i, Wrap(n + 1))];
    if !IsNode(fs, d) {
      return false, ops + [Relink(i, n)], false;
    }
    var k, _ := Lookup(fs, d, name);
    if k >= 0 {
      return false, ops + [Relink(i, n)], false;
    }
    var slot := FreeSlot(fs, d);
    if slot >= MOST {
      return true, [], true;
    }
    return false, ops + [Write(d, RECORD * slot, Record(i, name))], true;
  }

  /** What a call does before and within its transaction: the reads it makes, and the
      operations it then asks for; and whether they spoil the tree. */
  method Lower(fs: FileSystem.Fs, c: Call) returns (halts: bool, ops: seq<Op>, spoils: bool)
    requires Tidy(fs) && CallOk(c)
    modifies fs
    ensures Tidy(fs) && Same(fs) && halts == Halts(View(Files(fs.D())), c)
    ensures !halts ==> ops == OpsOf(Files(fs.D()), c) && spoils == Spoils(View(Files(fs.D())), c)
  {
    hide FileContent.Content, FileContent.NoHoles, FsState.Own, Entries, Find, Slot, Record, Neat, Has, CanGo;
    halts, spoils := false, false;
    match c
    case Unlink(d, name, last) =>
      ops := LowerUnlink(fs, d, name, last);
    case Create(d, name, typ) =>
      halts, ops := LowerCreate(fs, d, name, typ);
      NodeIs(fs, d);
      spoils := ops != [] && (fs.inode[d].nlink <= 0 || (typ == T_DIR && fs.inode[d].nlink == 0x7FFF));
    case Link(i, d, name) =>
      var goes;
      halts, ops, goes := LowerLink(fs, i, d, name);
      NodeIs(fs, d);
      NodeIs(fs, i);
      spoils := goes && (fs.inode[d].nlink <= 0 || fs.inode[i].nlink == 0x7FFF);
    case Reclaim(i) =>
      NodeIs(fs, i);
      ops := if 0 < i < |fs.inode| && fs.inode[i].typ != 0 && fs.inode[i].nlink == 0 then [Op.Free(i)] else [];
  }

  /** What became of a call. */
  ghost predicate Went(sb: FsState.Super, files: seq<FileVal>, c: Call, fate: Fate, r: Outcome, files': seq<FileVal>) {
    && 0 < |files| <= 0x1_0000 && CallOk(c)
    && (if Halts(View(files), c) then r == Panic else exists t :: Fated(sb, files, OpsOf(files, c), fate, r, t))
    && (r != Kept ==> files' == files)
    && (r == Kept && !Overflows(View(files), c) ==> Shows(files, c, files'))
    && (r == Kept ==> Effect(sb, files, c, files'))
  }

  /** The log area and the buffers have room for 18 blocks and the bitmap's. */
  predicate Roomy(sb: FsState.Super) {
    19 + sb.size / FsState.BPB <= sb.nlog && 19 + sb.size / FsState.BPB <= NBUF
  }

  /** A log of the usual size has room for any of the calls. */
  lemma LogHolds(sb: FsState.Super, files: seq<FileVal>, c: Call, fate: Fate, r: Outcome, t: LogSpec.Txn)
    requires 0 < |files| <= 0x1_0000 && CallOk(c) && Fated(sb, files, OpsOf(files, c), fate, r, t)
    requires Roomy(sb)
    ensures r == Panic <==> StuckIn(sb, files, OpsOf(files, c))
  {
    hide OpsOf, StuckIn, MostOf;
    CallCost(sb, files, c);
  }

  /** The outcome in terms of the files and the fate of the machine. */
  lemma Verdict(sb: FsState.Super, files: seq<FileVal>, home: Home, c: Call, fate: Fate, r: Outcome, t: LogSpec.Txn)
    requires Good(files, home) && CallOk(c) && FreeLeft(sb, files) >= 0
    requires Fated(sb, files, OpsOf(files, c), fate, r, t)
    ensures Roomy(sb) ==> (r == Panic <==> StuckIn(sb, files, OpsOf(files, c)))
    ensures Roomy(sb) && Supplied(sb, files, c) ==> r != Panic && (fate.Lives? ==> r == Kept)
  {
    hide OpsOf, StuckIn, MostOf, Supplied, FreeLeft, Inv;
    if Roomy(sb) { LogHolds(sb, files, c, fate, r, t); }
    if Supplied(sb, files, c) { CallClear(sb, files, home, c); }
  }

  /** What a call that was kept has made. */
  lemma KeptCall(sb: FsState.Super, files: seq<FileVal>, home: Home, c: Call)
    requires Good(files, home) && CallOk(c) && !Halts(View(files), c) && !StuckIn(sb, files, OpsOf(files, c))
    ensures var files' := All(files, OpsOf(files, c));
            && Upheld(files, c, files', HomeAfter(files, home, c)) && Effect(sb, files, c, files')
            && (!Overflows(View(files), c) ==> Shows(files, c, files'))
  {
    hide OpsOf, StuckIn, Halts, NoInode, Upheld, Effect, Shows, Overflows, HomeAfter, View, Inv;
    if NoInode(files, c) {
      NoneFree(sb, files, c);
    } else {
      CallUpholds(files, home, c);
      CallEffect(sb, files, home, c);
      if !Overflows(View(files), c) { CallShows(files, home, c); }
    }
  }

  lemma ThatWent(sb: FsState.Super, files: seq<FileVal>, c: Call, fate: Fate, r: Outcome, t: LogSpec.Txn,
                 files': seq<FileVal>)
    requires 0 < |files| <= 0x1_0000 && CallOk(c)
    requires if Halts(View(files), c) then r == Panic else Fated(sb, files, OpsOf(files, c), fate, r, t)
    requires r != Kept ==> files' == files
    requires r == Kept && !Overflows(View(files), c) ==> Shows(files, c, files')
    requires r == Kept ==> Effect(sb, files, c, files')
    ensures Went(sb, files, c, fate, r, files')
  {
    hide Halts, Overflows, Shows, Effect, OpsOf, Fated, View;
  }

  /** What became of all calls: ss are the files before, between and after them. */
  ghost predicate Story(sb: FsState.Super, calls: seq<Call>, fates: seq<Fate>, rs: seq<Outcome>,
                        ss: seq<seq<FileVal>>) {
    && |ss| == |rs| + 1 && |rs| <= |calls| == |fates|
    && forall n :: 0 <= n < |rs| ==> Went(sb, ss[n], calls[n], fates[n], rs[n], ss[n + 1])
  }

  /** The tree is sound before the first n calls and after them. */
  ghost predicate SoundUpTo(ss: seq<seq<FileVal>>, n: nat) {
    n < |ss| && forall k :: 0 <= k <= n ==> Sound(View(ss[k]), map[])
  }

  lemma StoryNone(sb: FsState.Super, calls: seq<Call>, fates: seq<Fate>, files: seq<FileVal>, home: Home)
    requires |calls| == |fates| && Good(files, home)
    ensures Story(sb, calls, fates, [], [files]) && SoundUpTo([files], 0)
  {
  }

  lemma StoryNext(sb: FsState.Super, calls: seq<Call>, fates: seq<Fate>, rs: seq<Outcome>, ss: seq<seq<FileVal>>,
                  r: Outcome, files: seq<FileVal>)
    requires Story(sb, calls, fates, rs, ss) && |rs| < |calls|
    requires Went(sb, ss[|rs|], calls[|rs|], fates[|rs|], r, files)
    ensures Story(sb, calls, fates, rs + [r], ss + [files])
  {
    hide Went;
    var rs', ss' := rs + [r], ss + [files];
    forall n | 0 <= n < |rs'| ensures Went(sb, ss'[n], calls[n], fates[n], rs'[n], ss'[n + 1]) {
      assert ss'[n] == ss[n];
      if n < |rs| { assert Went(sb, ss[n], calls[n], fates[n], rs[n], ss[n + 1]); }
    }
  }

  lemma SoundNext(ss: seq<seq<FileVal>>, n: nat, files: seq<FileVal>)
    requires SoundUpTo(ss, n) && |ss| == n + 1
    ensures SoundUpTo(ss + [files], n) && (Sound(View(files), map[]) ==> SoundUpTo(ss + [files], n + 1))
  {
    hide Sound, View;
    forall k | 0 <= k <= n ensures Sound(View((ss + [files])[k]), map[]) { assert (ss + [files])[k] == ss[k]; }
  }

  class Volume {
    const m: Machine
    ghost var home: Home

    ghost function Now(): seq<FileVal>
      requires Whole(m.fs.D())
      reads m, m.fs
    {
      Files(m.fs.D())
    }

    ghost predicate Valid()
      reads this, m, m.fs
    {
      m.Valid() && Good(Now(), home)
    }

    constructor (m: Machine, ghost home: Home)
      requires m.Valid() && Good(Files(m.fs.D()), home)
      ensures Valid() && this.m == m && this.home == home
    {
      hide Good, Files, Ready, FsState.Own, FileContent.NoHoles;
      this.m, this.home := m, home;
    }

    /** One call, a transaction, and the fate of the machine. */
    method Do(c: Call, fate: Fate) returns (r: Outcome, spoilt: bool, ghost t: LogSpec.Txn)
      requires Valid() && CallOk(c)
      modifies this, m, m.fs
      ensures m.Valid() && DiskFormat.Load(m.fs.sb, m.disk) == m.fs.D()
      ensures if Halts(View(old(Now())), c) then r == Panic
              else Fated(m.fs.sb, old(Now()), OpsOf(old(Now()), c), fate, r, t)
      ensures Roomy(m.fs.sb) ==>
                (r == Panic <==> Halts(View(old(Now())), c) || StuckIn(m.fs.sb, old(Now()), OpsOf(old(Now()), c)))
      ensures Hopeless(old(Now()), c) ==> r == Panic
      ensures Roomy(m.fs.sb) && Supplied(m.fs.sb, old(Now()), c) && !Hopeless(old(Now()), c) ==>
                r != Panic && (fate.Lives? ==> r == Kept)
      ensures r != Kept ==> Now() == old(Now())
      ensures spoilt <==> r == Kept && Spoils(View(old(Now())), c)
      ensures if spoilt then !Sound(View(Now()), map[]) else Valid()
      ensures r == Kept && !Overflows(View(old(Now())), c) ==> Shows(old(Now()), c, Now())
      ensures r == Kept ==> Effect(m.fs.sb, old(Now()), c, Now())
    {
      hide Sound, Spoils, Shows, Effect, Hopeless, Supplied, FreeLeft, Halts, OpsOf, Inv, Overflows, View, Ready,
        CrashSafety.Blank, FsState.Own, FileContent.NoHoles, StuckIn, MostOf, Files, HomeAfter;
      ghost var files := Now();
      ReadBack(m.fs, m.disk);
      HowMany(m.fs);
      r, spoilt, t := Panic, false, LogSpec.Txn([], []);
      var halts, ops, spoils := Lower(m.fs, c);
      HaltsIff(files, c);
      if halts {
        return;
      }
      FreeLeftIs(m.fs);
      OpsFit(m.fs.sb, files, c);
      r, t := m.Do(ops, fate);
      Verdict(m.fs.sb, files, home, c, fate, r, t);
      ReadBack(m.fs, m.disk);
      spoilt := r == Kept && spoils;
      if r == Kept {
        KeptCall(m.fs.sb, files, home, c);
        home := HomeAfter(files, home, c);
      }
    }

    /** Any calls and fates one after the other. The tree is sound all the time, up to a
        call that puts an entry in a removed directory or a count over the top. */
    method Run(calls: seq<Call>, fates: seq<Fate>) returns (done: nat, rs: seq<Outcome>, ghost ss: seq<seq<FileVal>>)
      requires Valid() && |fates| == |calls| && forall n :: 0 <= n < |calls| ==> CallOk(calls[n])
      modifies this, m, m.fs
      ensures m.Valid() && DiskFormat.Load(m.fs.sb, m.disk) == m.fs.D()
      ensures Story(m.fs.sb, calls, fates, rs, ss) && ss[0] == old(Now()) && ss[|rs|] == Now()
      ensures done <= |rs| && SoundUpTo(ss, done)
      ensures if done == |rs| then done == |calls| && Valid()
              else rs == rs[..done] + [Kept] && Spoils(View(ss[done]), calls[done]) && !Sound(View(Now()), map[])
    {
      hide Files, Ready, CrashSafety.Blank, FsState.Own, FileContent.NoHoles, Went, Effect, Spoils, View, Sound,
        Story, SoundUpTo;
      done, rs, ss := 0, [], [Now()];
      StoryNone(m.fs.sb, calls, fates, Now(), home);
      while done < |calls|
        invariant Valid() && done == |rs| <= |calls| && |ss| == done + 1 && ss[0] == old(Now()) && ss[done] == Now()
        invariant Story(m.fs.sb, calls, fates, rs, ss) && SoundUpTo(ss, done)
      {
        var r, spoilt, t := Do(calls[done], fates[done]);
        ThatWent(m.fs.sb, ss[done], calls[done], fates[done], r, t, Now());
        StoryNext(m.fs.sb, calls, fates, rs, ss, r, Now());
        SoundNext(ss, done, Now());
        rs, ss := rs + [r], ss + [Now()];
        if spoilt {
          return;
        }
        done := done + 1;
      }
      ReadBack(m.fs, m.disk);
    }
  }

  lemma FilesHeld(fs: FileSystem.Fs, img: Mkfs.Builder, files: seq<FileVal>)
    requires Mounted(fs) && MkfsTree.Holds(img, files) && fs.inode == img.inode && fs.data == img.data
    ensures Files(fs.D()) == files
  {
    hide FsState.Own, FileContent.NoHoles;
  }

  /** mkfs and boot: a kernel that finds the root directory and the files given to mkfs,
      in a tree that is sound. */
  method Start(size: nat, ninodes: nat, nlog: nat, srcs: seq<MkfsTree.Source>) returns (v: Volume)
    requires MkfsTree.SourcesOk(srcs, ninodes) && 0 < nlog && RECORD * (|srcs| + 2) % BSIZE != 0
    requires var n := Mkfs.Layout(size, ninodes, nlog).nmeta + MkfsTree.Room(srcs, |srcs|);
             n <= size <= UINT && n < BSIZE * 8
    ensures fresh(v) && fresh(v.m) && fresh(v.m.fs) && v.Valid() && v.m.fs.sb == Mkfs.Layout(size, ninodes, nlog)
    ensures v.Now() == MkfsTree.Image(srcs, ninodes)
    ensures forall k :: 0 <= k < |srcs| ==> MkfsTree.Filed(v.Now(), srcs[k], k + 2)
  {
    hide MkfsTree.Holds, MkfsTree.Image, MkfsTree.Room, FsState.Own, FileContent.NoHoles, Good, Ready, Files,
      MkfsTree.Filed;
    var img := MkfsTree.Make(size, ninodes, nlog, srcs);
    MkfsTree.HeldValid(img, MkfsTree.Image(srcs, ninodes));
    var m := Boot(img);
    FilesHeld(m.fs, img, MkfsTree.Image(srcs, ninodes));
    MkfsTree.ImageGood(srcs, ninodes);
    v := new Volume(m, map[]);
    forall k | 0 <= k < |srcs| ensures MkfsTree.Filed(v.Now(), srcs[k], k + 2) {
      MkfsTree.ImageNames(srcs, ninodes, k);
    }
  }
}
