/** sys_link, sys_unlink and create (sysfile.c) over dirlookup and dirlink (fs.c).
    Path names are resolved before: a call is given the inode or directory found,
    if any, and the last path element. */
module LinkCalls {
  import opened Links
  import Sets

  function Blank(i: nat): Inode {
    if i == ROOT then Inode(Dir, 1, [Entry(ROOT, DOT), Entry(ROOT, DOTDOT)]) else Inode(Unused, 0, [])
  }

  /** Whether d holds an entry with the name. */
  predicate Has(fs: Fs, d: nat, name: string)
    requires d in fs
  {
    Find(fs[d].entries, name, 0) < |fs[d].entries|
  }

  class Disk {
    var inodes: Fs
    ghost var pending: map<nat, nat>
    ghost var home: Home

    ghost predicate Valid() reads this { Inv(inodes, pending, home) }

    /** A root directory and otherwise free inodes, as mkfs starts out. */
    constructor (ninodes: nat)
      requires ninodes > ROOT
      ensures Valid() && pending == map[] && Linked(inodes, ROOT)
      ensures forall i :: i in inodes <==> 0 < i < ninodes
      ensures forall i :: i in inodes ==> inodes[i] == Blank(i)
    {
      inodes := map i: nat | 0 < i < ninodes :: Blank(i);
      pending, home := map[], map[];
      new;
      forall i | i in inodes ensures Counted(inodes, pending, i) {
        if i == ROOT {
          forall x | x in Namers(inodes, ROOT) || x == (ROOT, 1) ensures x == (ROOT, 1) && x in Namers(inodes, ROOT) {
            InNamers(inodes, ROOT, x.0, x.1);
          }
          assert Namers(inodes, ROOT) == {(ROOT, 1)};
        }
      }
    }

    /** dirlookup: the entry's index, -1 if there is none. */
    method DirLookup(d: nat, name: string) returns (k: int)
      requires IsDir(inodes, d)
      ensures var es := inodes[d].entries; k == if Find(es, name, 0) < |es| then Find(es, name, 0) else -1
    {
      var es := inodes[d].entries;
      k := 0;
      while k < |es|
        invariant 0 <= k <= |es| && Find(es, name, k) == Find(es, name, 0)
      {
        if es[k].inum != 0 && es[k].name == name {
          return;
        }
        k := k + 1;
      }
      return -1;
    }

    /** dirlink: fails if the name is there. */
    method DirLink(d: nat, name: string, i: nat) returns (ok: bool)
      requires IsDir(inodes, d)
      modifies this`inodes
      ensures var es := old(inodes)[d].entries;
              && (ok <==> Find(es, name, 0) == |es|)
              && inodes == if ok then SetEntries(old(inodes), d, Added(es, name, i)) else old(inodes)
    {
      var at := DirLookup(d, name);
      if at >= 0 {
        return false;
      }
      var es, k := inodes[d].entries, 0;
      while k < |es|
        invariant 0 <= k <= |es| && Slot(es, k) == Slot(es, 0)
      {
        if es[k].inum == 0 {
          break;
        }
        k := k + 1;
      }
      var e := Entry(i, name);
      inodes := SetEntries(inodes, d, if k < |es| then es[k := e] else es + [e]);
      return true;
    }

    method IsDirEmpty(d: nat) returns (b: bool)
      requires IsDir(inodes, d)
      ensures b == Empty(inodes[d].entries)
    {
      var es, k := inodes[d].entries, 2;
      while k < |es|
        invariant 2 <= k && forall j :: 2 <= j < k && j < |es| ==> es[j].inum == 0
      {
        if es[k].inum != 0 {
          return false;
        }
        k := k + 1;
      }
      return true;
    }

    /** The first half of sys_link, done before the file is unlocked again. */
    method LinkCount(i: nat) returns (ok: bool)
      requires Valid() && Used(inodes, i)
      modifies this
      ensures Valid() && home == old(home) && ok == !old(inodes)[i].kind.Dir?
      ensures ok ==>
                inodes == SetCount(old(inodes), i, old(inodes)[i].nlink + 1)
                && pending == old(pending)[i := Pend(old(pending), i) + 1]
      ensures !ok ==> inodes == old(inodes) && pending == old(pending)
    {
      hide Inv;
      if inodes[i].kind.Dir? {
        return false;
      }
      PendKeeps(inodes, pending, home, i, Pend(pending, i) + 1);
      inodes := SetCount(inodes, i, inodes[i].nlink + 1);
      pending := pending[i := Pend(pending, i) + 1];
      return true;
    }

    /** The second half, any number of other calls later: the entry, or the count
        taken back. */
    method LinkEntry(i: nat, parent: bool, d: nat, name: string, sameDev: bool) returns (ok: bool)
      requires Valid() && Used(inodes, i) && Pend(pending, i) > 0 && (parent ==> IsDir(inodes, d))
      modifies this
      ensures home == old(home) && pending == old(pending)[i := Pend(old(pending), i) - 1]
      ensures ok <==> parent && sameDev && !Has(old(inodes), d, name)
      ensures ok ==> inodes == SetEntries(old(inodes), d, Added(old(inodes)[d].entries, name, i))
      ensures !ok ==> inodes == SetCount(old(inodes), i, old(inodes)[i].nlink - 1)
      ensures !ok || Linked(old(inodes), d) ==> Valid()
      ensures ok && !Linked(old(inodes), d) ==> !Sound(inodes, pending)
    {
      hide Sound, Tree, Shaped;
      ok := false;
      if parent {
        if sameDev {
          if !Has(inodes, d, name) { LinkKeeps(inodes, pending, home, d, name, i); }
          ok := DirLink(d, name, i);
        }
      }
      if !ok {
        PendKeeps(inodes, pending, home, i, Pend(pending, i) - 1);
        inodes := SetCount(inodes, i, inodes[i].nlink - 1);
      }
      pending := pending[i := Pend(pending, i) - 1];
    }

    /** sys_link run by itself: it makes the link, or changes nothing. */
    method Link(found: bool, i: nat, parent: bool, d: nat, name: string, sameDev: bool) returns (r: int)
      requires Valid() && (found ==> Used(inodes, i)) && (parent ==> IsDir(inodes, d))
      modifies this
      ensures r == 0 || r == -1
      ensures r == 0 <==> found && !old(inodes)[i].kind.Dir? && parent && sameDev && !Has(old(inodes), d, name)
      ensures r == 0 ==>
                inodes == SetEntries(SetCount(old(inodes), i, old(inodes)[i].nlink + 1), d,
                                     Added(old(inodes)[d].entries, name, i))
      ensures r == -1 ==> inodes == old(inodes)
      ensures forall j :: Pend(pending, j) == Pend(old(pending), j)
      ensures r == -1 || Linked(old(inodes), d) ==> Valid()
    {
      hide Inv;
      if !found {
        return -1;
      }
      var file := LinkCount(i);
      if !file {
        return -1;
      }
      var ok := LinkEntry(i, parent, d, name, sameDev);
      r := if ok then 0 else -1;
    }

    /** sys_unlink: its panic cannot happen. */
    method Unlink(parent: bool, d: nat, name: string) returns (r: int)
      requires Valid() && (parent ==> IsDir(inodes, d))
      modifies this
      ensures Valid() && (forall j :: Pend(pending, j) == Pend(old(pending), j))
      ensures r == 0 || r == -1
      ensures r == 0 <==>
                parent && name != DOT && name != DOTDOT && Has(old(inodes), d, name) && CanGo(old(inodes), d, name)
      ensures r == 0 ==> inodes == Unlinked(old(inodes), d, Find(old(inodes)[d].entries, name, 0))
      ensures r == -1 ==> inodes == old(inodes)
    {
      hide Inv, Find, Empty, Removed;
      if !parent || name == DOT || name == DOTDOT {
        return -1;
      }
      var k := DirLookup(d, name);
      if k < 0 {
        return -1;
      }
      ghost var fs := inodes;
      UnlinkFacts(fs, pending, home, d, name);
      var i := inodes[d].entries[k].inum;
      assert inodes[i].nlink >= 1;
      if inodes[i].kind.Dir? {
        var empty := IsDirEmpty(i);
        if !empty {
          return -1;
        }
      }
      UnlinkKeeps(fs, pending, home, d, k);
      inodes := SetEntries(inodes, d, inodes[d].entries[k := ERASED]);
      if inodes[i].kind.Dir? {
        inodes := SetCount(inodes, d, inodes[d].nlink - 1);
      }
      inodes := SetCount(inodes, i, inodes[i].nlink - 1);
      pending := if fs[i].kind.Dir? then pending else pending[i := Pend(pending, i)];
      return 0;
    }

    /** create, for a file or a directory; inum is the inode ialloc finds, 0 if there is
        none. It returns 0 if there is no such parent, or the name is taken and is not a
        file that a file may be opened as. ok is false where it panics: in ialloc for
        want of an inode, and in ilock on the ".." of a removed directory whose parent
        is gone. */
    method Create(parent: bool, d: nat, name: string, kind: Kind, inum: nat) returns (ok: bool, i: nat)
      requires Valid() && !kind.Unused? && (parent ==> IsDir(inodes, d))
      requires if inum == 0 then forall j :: j in inodes ==> Used(inodes, j)
               else inum in inodes && inodes[inum].kind.Unused?
      modifies this
      ensures !ok <==>
                parent && if Has(old(inodes), d, name) then Orphan(old(inodes), d) && name == DOTDOT else inum == 0
      ensures ok && !parent ==> i == 0
      ensures ok && parent && Has(old(inodes), d, name) ==>
        var j := Named(old(inodes), d, name);
        Used(old(inodes), j) && i == if kind.File? && old(inodes)[j].kind.File? then j else 0
      ensures !ok || !parent || Has(old(inodes), d, name) ==> inodes == old(inodes) && Valid()
      ensures ok && parent && !Has(old(inodes), d, name) ==>
                i == inum && inodes == Created(old(inodes), d, name, kind, inum)
      ensures ok && parent && !Has(old(inodes), d, name) ==>
                if Linked(old(inodes), d) then Valid() else !Sound(inodes, pending)
      ensures forall j :: Pend(pending, j) == Pend(old(pending), j)
    {
      hide Inv, Find, Added, Sound, Made, Orphan;
      i := 0;
      if !parent {
        return true, 0;
      }
      var k := DirLookup(d, name);
      if k >= 0 {
        NamedUsed(inodes, pending, home, d, name);
        i := inodes[d].entries[k].inum;
        if i !in inodes || inodes[i].kind.Unused? {
          return false, 0;
        }
        if !(kind.File? && inodes[i].kind.File?) {
          i := 0;
        }
        return true, i;
      }
      if inum == 0 {
        return false, 0;
      }
      ok := true;
      ghost var fs := inodes;
      i := inum;
      CreateKeeps(fs, pending, home, d, name, kind, i);
      inodes := inodes[i := Inode(kind, 1, [])];
      if kind.Dir? {
        inodes := SetCount(inodes, d, inodes[d].nlink + 1);
        DotsFit(i, d);
        var dot := DirLink(i, DOT, i);
        var dotdot := DirLink(i, DOTDOT, d);
        assert dot && dotdot;
        home := home[i := (d, Slot(fs[d].entries, 0))];
      } else {
        pending := pending[i := 0];
      }
      var added := DirLink(d, name, i);
      assert added;
      CreatedIs(fs, inodes, d, name, kind, i);
    }

    /** iput on the last reference to an inode that has no links. */
    method Reclaim(i: nat)
      requires Valid() && Used(inodes, i) && inodes[i].nlink == 0
      modifies this`inodes
      ensures Valid() && inodes == old(inodes)[i := Inode(Unused, 0, [])]
    {
      hide Inv;
      ReclaimKeeps(inodes, pending, home, i);
      inodes := inodes[i := Inode(Unused, 0, [])];
    }
  }

  /** The inode that a name in a directory stands for. */
  function Named(fs: Fs, d: nat, name: string): nat
    requires d in fs && Has(fs, d, name)
  {
    fs[d].entries[Find(fs[d].entries, name, 0)].inum
  }

  /** A removed directory whose parent is no longer in use. */
  predicate Orphan(fs: Fs, d: nat) {
    IsDir(fs, d) && !Linked(fs, d) && |fs[d].entries| >= 2 && !Used(fs, fs[d].entries[1].inum)
  }

  /** A name in a directory stands for an inode in use, but for that "..". */
  lemma NamedUsed(fs: Fs, pending: map<nat, nat>, home: Home, d: nat, name: string)
    requires Inv(fs, pending, home) && IsDir(fs, d) && Has(fs, d, name)
    ensures Used(fs, Named(fs, d, name)) <==> !(Orphan(fs, d) && name == DOTDOT)
  {
    var k := Find(fs[d].entries, name, 0);
    assert Shaped(fs, d) && Solid(fs, d, k);
  }

  function Created(fs: Fs, d: nat, name: string, kind: Kind, i: nat): Fs
    requires d in fs
  {
    if kind.Dir? then Made(fs, d, name, i)
    else SetEntries(fs[i := Inode(File, 1, [])], d, Added(fs[d].entries, name, i))
  }

  lemma DotsFit(i: nat, d: nat)
    ensures Find([], DOT, 0) == 0 && Added([], DOT, i) == [Entry(i, DOT)]
    ensures i != 0 ==>
              Find([Entry(i, DOT)], DOTDOT, 0) == 1
              && Added([Entry(i, DOT)], DOTDOT, d) == [Entry(i, DOT), Entry(d, DOTDOT)]
  {
  }

  lemma CreatedIs(fs: Fs, fs': Fs, d: nat, name: string, kind: Kind, i: nat)
    requires IsDir(fs, d) && i in fs && i != d && !kind.Unused? && fs'.Keys == fs.Keys
    requires forall j :: j in fs && j != i && j != d ==> fs'[j] == fs[j]
    requires fs'[i] == if kind.Dir? then NewDir(i, d) else Inode(kind, 1, [])
    requires fs'[d] == Inode(fs[d].kind, fs[d].nlink + (if kind.Dir? then 1 else 0), Added(fs[d].entries, name, i))
    ensures fs' == Created(fs, d, name, kind, i)
  {
    hide Added;
  }

  lemma NewFacts(fs: Fs, pending: map<nat, nat>, home: Home, i: nat)
    requires Inv(fs, pending, home) && i in fs && fs[i].kind.Unused?
    ensures i != 0 && Pend(pending, i) == 0
  {
  }

  /** A new entry for a new inode: right if and only if the parent is linked. */
  lemma CreateKeeps(fs: Fs, pending: map<nat, nat>, home: Home, d: nat, name: string, kind: Kind, i: nat)
    requires Inv(fs, pending, home) && IsDir(fs, d) && !Has(fs, d, name) && i in fs && fs[i].kind.Unused?
             && !kind.Unused?
    ensures i != 0 && i != d && Pend(pending, i) == 0
    ensures var fs' := Created(fs, d, name, kind, i);
            var pending' := if kind.Dir? then pending else pending[i := 0];
            var home' := if kind.Dir? then home[i := (d, Slot(fs[d].entries, 0))] else home;
            if Linked(fs, d) then Inv(fs', pending', home') else !Sound(fs', pending')
  {
    hide Inv, Sound, Made, Added, Find;
    NewFacts(fs, pending, home, i);
    if kind.Dir? {
      MkdirKeeps(fs, pending, home, d, name, i);
    } else {
      AllocKeeps(fs, pending, home, i);
      var fs1, pending1 := fs[i := Inode(File, 1, [])], pending[i := 1];
      LinkKeeps(fs1, pending1, home, d, name, i);
      assert pending1[i := 0] == pending[i := 0];
    }
  }

  /** What the name stands for may be unlinked: a file or an empty directory. */
  predicate CanGo(fs: Fs, d: nat, name: string)
    requires d in fs && Has(fs, d, name)
  {
    var i := fs[d].entries[Find(fs[d].entries, name, 0)].inum;
    i in fs && (fs[i].kind.Dir? ==> Empty(fs[i].entries))
  }

  function Unlinked(fs: Fs, d: nat, k: int): Fs
    requires d in fs && 0 <= k < |fs[d].entries|
  {
    var i := fs[d].entries[k].inum;
    if i !in fs then fs
    else if fs[i].kind.Dir? then Removed(fs, d, k)
    else SetCount(SetEntries(fs, d, fs[d].entries[k := ERASED]), i, fs[i].nlink - 1)
  }

  /** An entry other than a dot, in a directory that must then be linked. */
  lemma UnlinkFacts(fs: Fs, pending: map<nat, nat>, home: Home, d: nat, name: string)
    requires Inv(fs, pending, home) && IsDir(fs, d) && name != DOT && name != DOTDOT && Has(fs, d, name)
    ensures var k := Find(fs[d].entries, name, 0);
            var i := fs[d].entries[k].inum;
            2 <= k && Linked(fs, d) && Used(fs, i) && fs[i].nlink >= 1 && fs[d].entries[k].name == name
  {
    hide Tree, Unique;
    var k := Find(fs[d].entries, name, 0);
    var i := fs[d].entries[k].inum;
    assert Shaped(fs, d);
    assert Solid(fs, d, k) && Names(fs, d, k, i);
    assert Counted(fs, pending, i);
    InNamers(fs, i, d, k);
    Sets.SubsetSize({(d, k)}, Namers(fs, i));
  }

  /** Unlinking keeps the counts. */
  lemma UnlinkKeeps(fs: Fs, pending: map<nat, nat>, home: Home, d: nat, k: int)
    requires Inv(fs, pending, home) && Linked(fs, d) && 2 <= k < |fs[d].entries| && fs[d].entries[k].inum != 0
             && fs[d].entries[k].name != DOT
    requires var i := fs[d].entries[k].inum; Used(fs, i) && (fs[i].kind.Dir? ==> Empty(fs[i].entries))
    ensures var i := fs[d].entries[k].inum;
            && Inv(Unlinked(fs, d, k), if fs[i].kind.Dir? then pending else pending[i := Pend(pending, i)], home)
            && (fs[i].kind.Dir? ==>
                  && i != d
                  && var fs1 := SetCount(SetEntries(fs, d, fs[d].entries[k := ERASED]), d, fs[d].nlink - 1);
                  && Unlinked(fs, d, k) == SetCount(fs1, i, fs[i].nlink - 1))
  {
    hide Inv;
    var i := fs[d].entries[k].inum;
    if fs[i].kind.Dir? {
      NamedOnce(fs, pending, home, d, k);
      ParentStays(fs, pending, home, d, k);
      RmdirKeeps(fs, pending, home, d, k);
    } else {
      EraseKeeps(fs, pending, home, d, k);
      var fs1, pending1 := SetEntries(fs, d, fs[d].entries[k := ERASED]), pending[i := Pend(pending, i) + 1];
      PendKeeps(fs1, pending1, home, i, Pend(pending, i));
      assert pending1[i := Pend(pending, i)] == pending[i := Pend(pending, i)];
    }
  }

  lemma FindAdded(es: seq<Entry>, name: string, i: nat)
    requires Find(es, name, 0) == |es| && i != 0
    ensures var es' := Added(es, name, i);
            Find(es', name, 0) == Slot(es, 0) < |es'| && es'[Slot(es, 0)] == Entry(i, name)
  {
    var es', k := Added(es, name, i), Slot(es, 0);
    assert es'[k] == Entry(i, name);
    forall j | 0 <= j < k ensures es'[j].name != name { assert es'[j] == es[j]; }
  }

  /** Adding an entry to a directory of dots and erasing it leaves the dots. */
  lemma AddedErased(es: seq<Entry>, name: string, i: nat)
    requires |es| >= 2 && es[0].inum != 0 && es[1].inum != 0 && Empty(es)
    ensures var es', k := Added(es, name, i), Slot(es, 0);
            2 <= k < |es'| && Empty(es'[k := ERASED]) && es'[..2] == es[..2]
  {
  }

  /** A name other than a dot is not in a directory of dots. */
  lemma NotThere(es: seq<Entry>, name: string)
    requires |es| >= 2 && es[0].name == DOT && es[1].name == DOTDOT && Empty(es) && name != DOT && name != DOTDOT
    ensures Find(es, name, 0) == |es|
  {
  }

  method Mkdir(disk: Disk, d: nat, name: string, i: nat)
    requires disk.Valid() && Linked(disk.inodes, d) && !Has(disk.inodes, d, name)
    requires i in disk.inodes && disk.inodes[i].kind.Unused?
    modifies disk
    ensures disk.Valid() && disk.inodes == Made(old(disk.inodes), d, name, i)
    ensures i != 0 && i != d && Has(disk.inodes, d, name) && Named(disk.inodes, d, name) == i
    ensures Find(disk.inodes[d].entries, name, 0) == Slot(old(disk.inodes)[d].entries, 0)
  {
    hide Inv, Find, Added, Sound;
    NewFacts(disk.inodes, disk.pending, disk.home, i);
    FindAdded(disk.inodes[d].entries, name, i);
    var ok, i' := disk.Create(true, d, name, Dir, i);
  }

  /** rmdir, of a directory that someone still uses. */
  method Rmdir(disk: Disk, d: nat, name: string, i: nat)
    requires disk.Valid() && Linked(disk.inodes, d) && name != DOT && name != DOTDOT
    requires Has(disk.inodes, d, name) && Named(disk.inodes, d, name) == i && IsDir(disk.inodes, i)
             && Empty(disk.inodes[i].entries)
    modifies disk
    ensures disk.Valid() && disk.inodes == Removed(old(disk.inodes), d, Find(old(disk.inodes)[d].entries, name, 0))
  {
    hide Inv, Find, Sound;
    var r := disk.Unlink(true, d, name);
  }

  /** After mkdir of 2 in the root and rmdir of it while it is someone's current
      directory, a file made in it has a link count but no link. */
  method RemovedParent() returns (disk: Disk)
    ensures 3 in disk.inodes && disk.inodes[3] == Inode(File, 1, []) && !Sound(disk.inodes, disk.pending)
  {
    hide Inv, Find, Added, Sound, Slot;
    disk := new Disk(4);
    NotThere(disk.inodes[ROOT].entries, "d");
    Mkdir(disk, ROOT, "d", 2);
    Rmdir(disk, ROOT, "d", 2);
    NotThere(disk.inodes[2].entries, "x");
    var ok, i := disk.Create(true, 2, "x", File, 3);
  }

  lemma DotDotThere(es: seq<Entry>)
    requires |es| >= 2 && es[0].name == DOT && es[1].name == DOTDOT && es[1].inum != 0
    ensures Find(es, DOTDOT, 0) == 1
  {
  }

  /** 2 in the root and 3 in 2 are made and removed, 3 being someone's current
      directory, and 2 is reclaimed. */
  method MakeOrphan() returns (disk: Disk)
    ensures disk.Valid() && fresh(disk) && Orphan(disk.inodes, 3) && disk.inodes[3].entries == NewDir(3, 2).entries
    ensures 4 in disk.inodes && disk.inodes[4].kind.Unused?
  {
    hide Inv, Find, Added, Sound, Slot;
    disk := new Disk(5);
    NotThere(disk.inodes[ROOT].entries, "a");
    Mkdir(disk, ROOT, "a", 2);
    MakeAndRemove(disk, 2, "b", 3);
    Rmdir(disk, ROOT, "a", 2);
    disk.Reclaim(2);
  }

  /** mkdir of i in the new directory d, and rmdir of it. */
  method MakeAndRemove(disk: Disk, d: nat, name: string, i: nat)
    requires disk.Valid() && d in disk.inodes && disk.inodes[d].kind.Dir? && disk.inodes[d].nlink > 0
    requires name != DOT && name != DOTDOT
    requires exists e :: disk.inodes[d].entries == NewDir(d, e).entries && e != 0
    requires i in disk.inodes && disk.inodes[i].kind.Unused? && d != 0
    modifies disk
    ensures disk.Valid() && disk.inodes.Keys == old(disk.inodes.Keys)
    ensures disk.inodes[d].kind.Dir? && disk.inodes[d].nlink == old(disk.inodes[d].nlink)
    ensures Empty(disk.inodes[d].entries)
    ensures i != d && disk.inodes[i] == NewDir(i, d).(nlink := 0)
    ensures forall j :: j in disk.inodes && j != d && j != i ==> disk.inodes[j] == old(disk.inodes)[j]
  {
    hide Inv, Find, Added, Sound, Slot;
    NotThere(disk.inodes[d].entries, name);
    AddedErased(disk.inodes[d].entries, name, i);
    Mkdir(disk, d, name, i);
    Rmdir(disk, d, name, i);
  }

  /** In such a directory open("..", O_CREATE) panics. */
  method GoneParent() returns (disk: Disk, ok: bool)
    ensures disk.Valid() && Orphan(disk.inodes, 3) && !ok
  {
    hide Inv, Find, Added, Sound;
    disk := MakeOrphan();
    DotDotThere(disk.inodes[3].entries);
    var i;
    ok, i := disk.Create(true, 3, DOTDOT, File, 4);
  }
}
