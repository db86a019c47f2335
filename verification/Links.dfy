/** Link counts and directory entries (sysfile.c, fs.c): what link, unlink, create
    and mkdir keep. Inodes are numbered; entry 0 of a directory is ".", entry 1
    is "..", and an entry with inode number 0 is free. */
module Links {
  import Sets

  const ROOT: nat := 1

  datatype Kind = Unused | File | Dir

  datatype Entry = Entry(inum: nat, name: string)

  datatype Inode = Inode(kind: Kind, nlink: int, entries: seq<Entry>)

  type Fs = map<nat, Inode>

  const DOT := "."
  const DOTDOT := ".."
  const ERASED := Entry(0, "")

  /** A directory that has not been removed. */
  predicate Linked(fs: Fs, d: nat) { d in fs && fs[d].kind.Dir? && fs[d].nlink > 0 }

  predicate IsDir(fs: Fs, d: nat) { d in fs && fs[d].kind.Dir? }

  predicate Used(fs: Fs, i: nat) { i in fs && !fs[i].kind.Unused? }

  /** Entry k of d names inode i, other than as ".", in a linked directory. */
  predicate Names(fs: Fs, d: nat, k: int, i: nat) {
    && Linked(fs, d) && 0 <= k < |fs[d].entries|
    && fs[d].entries[k].inum == i && fs[d].entries[k].name != DOT
  }

  ghost function Namers(fs: Fs, i: nat): set<(nat, int)> {
    set d, k | d in fs && 0 <= k < |fs[d].entries| && Names(fs, d, k, i) :: (d, k)
  }

  /** Links that sys_link has counted and not yet made. */
  function Pend(pending: map<nat, nat>, i: nat): nat { if i in pending then pending[i] else 0 }

  ghost predicate Counted(fs: Fs, pending: map<nat, nat>, i: nat) {
    Used(fs, i) ==> fs[i].nlink == |Namers(fs, i)| + Pend(pending, i)
  }

  /** The entry names an inode that exists. */
  predicate Solid(fs: Fs, d: nat, k: int) {
    Linked(fs, d) && 0 <= k < |fs[d].entries| && fs[d].entries[k].inum != 0 ==> Used(fs, fs[d].entries[k].inum)
  }

  /** What is promised: link counts are right, no entry dangles. */
  ghost predicate Sound(fs: Fs, pending: map<nat, nat>) {
    && (forall i :: i in fs ==> Counted(fs, pending, i))
    && (forall d, k :: Solid(fs, d, k))
  }

  predicate Differ(es: seq<Entry>, j: int, k: int)
    requires 0 <= j < |es| && 0 <= k < |es|
  {
    es[j].inum == 0 || es[k].inum == 0 || es[j].name != es[k].name
  }

  /** No two entries of a directory have the same name. */
  ghost predicate Unique(es: seq<Entry>) {
    forall j, k :: 0 <= j < k < |es| ==> Differ(es, j, k)
  }

  /** Nothing but dots. */
  predicate Empty(es: seq<Entry>) { forall k :: 2 <= k < |es| ==> es[k].inum == 0 }

  /** Every directory starts with its dots and has unique names; a removed one is
      empty. */
  ghost predicate Shaped(fs: Fs, d: nat) {
    IsDir(fs, d) ==>
      && var es := fs[d].entries;
      && |es| >= 2 && es[0] == Entry(d, DOT) && es[1].name == DOTDOT && es[1].inum != 0 && Unique(es)
      && (fs[d].nlink <= 0 ==> Empty(es))
  }

  type Home = map<nat, (nat, int)>

  /** home gives each directory but the root the one entry that names it, in its
      parent; and an entry of that kind is a home. */
  predicate AtHome(fs: Fs, home: Home, c: nat) {
    Linked(fs, c) && c != ROOT ==>
      && c in home && home[c].1 >= 2 && Names(fs, home[c].0, home[c].1, c)
      && |fs[c].entries| >= 2 && fs[c].entries[1].inum == home[c].0
  }

  predicate IsHome(fs: Fs, home: Home, d: nat, k: int) {
    Linked(fs, d) && 2 <= k < |fs[d].entries| && IsDir(fs, fs[d].entries[k].inum) ==>
      && var c := fs[d].entries[k].inum;
      && c != ROOT && c in home && home[c] == (d, k)
  }

  ghost predicate Tree(fs: Fs, home: Home) {
    && Linked(fs, ROOT) && |fs[ROOT].entries| >= 2 && fs[ROOT].entries[1].inum == ROOT
    && (forall c :: AtHome(fs, home, c))
    && (forall d, k :: IsHome(fs, home, d, k))
  }

  ghost predicate Inv(fs: Fs, pending: map<nat, nat>, home: Home) {
    && 0 !in fs
    && Sound(fs, pending)
    && (forall d :: d in fs ==> Shaped(fs, d))
    && Tree(fs, home)
    && (forall i :: i in pending && pending[i] > 0 ==> Used(fs, i) && !fs[i].kind.Dir?)
  }

  // ---- directory contents ----

  /** dirlookup: the first entry with the name, |es| if there is none. */
  function Find(es: seq<Entry>, name: string, k: nat): (r: nat)
    requires k <= |es|
    ensures k <= r <= |es| && (forall j :: k <= j < r ==> es[j].inum == 0 || es[j].name != name)
    ensures r < |es| ==> es[r].inum != 0 && es[r].name == name
    decreases |es| - k
  {
    if k == |es| then k else if es[k].inum != 0 && es[k].name == name then k else Find(es, name, k + 1)
  }

  /** dirlink: the first free entry, |es| if there is none. */
  function Slot(es: seq<Entry>, k: nat): (r: nat)
    requires k <= |es|
    ensures k <= r <= |es| && (forall j :: k <= j < r ==> es[j].inum != 0)
    ensures r < |es| ==> es[r].inum == 0
    decreases |es| - k
  {
    if k == |es| then k else if es[k].inum == 0 then k else Slot(es, k + 1)
  }

  function Added(es: seq<Entry>, name: string, inum: nat): seq<Entry> {
    var k := Slot(es, 0);
    if k < |es| then es[k := Entry(inum, name)] else es + [Entry(inum, name)]
  }

  lemma AddedUnique(es: seq<Entry>, name: string, inum: nat)
    requires Unique(es) && Find(es, name, 0) == |es| && |es| >= 2 && es[0].inum != 0 && es[1].inum != 0
    ensures var es', k := Added(es, name, inum), Slot(es, 0);
            && Unique(es') && 2 <= k < |es'| && es'[k] == Entry(inum, name) && |es| <= |es'|
            && (forall j :: 0 <= j < |es'| && j != k ==> j < |es| && es'[j] == es[j]) && (k < |es| ==> es[k].inum == 0)
  {
    var es', k := Added(es, name, inum), Slot(es, 0);
    forall i, j | 0 <= i < j < |es'| ensures Differ(es', i, j) {
      assert i != k && j != k ==> Differ(es, i, j);
    }
  }

  // ---- counting ----

  lemma InNamers(fs: Fs, i: nat, d: nat, k: int)
    ensures (d, k) in Namers(fs, i) <==> Names(fs, d, k, i)
  {
  }

  lemma NamersKept(fs: Fs, fs': Fs, i: nat)
    requires forall d, k :: Names(fs', d, k, i) <==> Names(fs, d, k, i)
    ensures Namers(fs', i) == Namers(fs, i)
  {
    forall x | x in Namers(fs, i) || x in Namers(fs', i) ensures x in Namers(fs, i) && x in Namers(fs', i) {
      InNamers(fs, i, x.0, x.1);
      InNamers(fs', i, x.0, x.1);
    }
  }

  lemma NamersPlus(fs: Fs, fs': Fs, i: nat, d: nat, k: int)
    requires !Names(fs, d, k, i)
    requires forall d', k' :: Names(fs', d', k', i) <==> Names(fs, d', k', i) || (d' == d && k' == k)
    ensures |Namers(fs', i)| == |Namers(fs, i)| + 1
  {
    forall x | x in Namers(fs, i) + {(d, k)} || x in Namers(fs', i)
      ensures x in Namers(fs, i) + {(d, k)} && x in Namers(fs', i)
    {
      InNamers(fs, i, x.0, x.1);
      InNamers(fs', i, x.0, x.1);
    }
    assert Namers(fs', i) == Namers(fs, i) + {(d, k)};
    InNamers(fs, i, d, k);
  }

  // ---- link ----

  function SetCount(fs: Fs, i: nat, nlink: int): Fs
    requires i in fs
  {
    fs[i := fs[i].(nlink := nlink)]
  }

  function SetEntries(fs: Fs, d: nat, es: seq<Entry>): Fs
    requires d in fs
  {
    fs[d := fs[d].(entries := es)]
  }

  /** Only files' link counts differ. */
  ghost predicate SameDirs(fs: Fs, fs': Fs) {
    fs.Keys == fs'.Keys && forall d :: d in fs ==> fs[d].kind == fs'[d].kind && (fs[d].kind.Dir? ==> fs'[d] == fs[d])
  }

  lemma SameNames(fs: Fs, fs': Fs, i: nat)
    requires SameDirs(fs, fs')
    ensures Namers(fs', i) == Namers(fs, i)
  {
    hide Namers;
    forall d, k ensures Names(fs', d, k, i) <==> Names(fs, d, k, i) { assert d in fs <==> d in fs'; }
    NamersKept(fs, fs', i);
  }

  lemma SameSolid(fs: Fs, fs': Fs, d: nat, k: int)
    requires SameDirs(fs, fs') && Solid(fs, d, k)
    ensures Solid(fs', d, k)
  {
  }

  lemma SameTree(fs: Fs, fs': Fs, home: Home)
    requires SameDirs(fs, fs') && Tree(fs, home)
    ensures Tree(fs', home)
  {
    forall c ensures AtHome(fs', home, c) { assert AtHome(fs, home, c); }
    forall d, k ensures IsHome(fs', home, d, k) { assert IsHome(fs, home, d, k); }
  }

  /** Counting a link to a file before it is made, or taking that back. */
  lemma PendKeeps(fs: Fs, pending: map<nat, nat>, home: Home, i: nat, n: nat)
    requires Inv(fs, pending, home) && Used(fs, i) && !fs[i].kind.Dir?
    ensures Inv(SetCount(fs, i, fs[i].nlink + n - Pend(pending, i)), pending[i := n], home)
  {
    hide Tree, Namers, Solid;
    var fs', pending' := SetCount(fs, i, fs[i].nlink + n - Pend(pending, i)), pending[i := n];
    SameTree(fs, fs', home);
    forall j | j in fs' ensures Counted(fs', pending', j) {
      assert Counted(fs, pending, j);
      SameNames(fs, fs', j);
    }
    forall d, k ensures Solid(fs', d, k) { SameSolid(fs, fs', d, k); }
    forall d | d in fs' ensures Shaped(fs', d) { assert Shaped(fs, d); }
  }

  /** Entry k of directory d, not a dot, has become e. */
  ghost predicate Wrote(fs: Fs, fs': Fs, d: nat, k: int, e: Entry) {
    && IsDir(fs, d) && fs'.Keys == fs.Keys && (forall i :: i in fs && i != d ==> fs'[i] == fs[i])
    && fs'[d].kind == fs[d].kind && fs'[d].nlink == fs[d].nlink
    && var es, es' := fs[d].entries, fs'[d].entries;
    && 2 <= k < |es'| && es'[k] == e && |es| <= |es'| && Unique(es')
    && (forall j :: 0 <= j < |es'| && j != k ==> j < |es| && es'[j] == es[j])
  }

  lemma WroteNames(fs: Fs, fs': Fs, d: nat, k: int, e: Entry, d': nat, k': int, i: nat)
    requires Wrote(fs, fs', d, k, e)
    ensures Names(fs', d', k', i) <==>
              if d' == d && k' == k then Linked(fs, d) && e.inum == i && e.name != DOT else Names(fs, d', k', i)
  {
    assert d' in fs <==> d' in fs';
  }

  lemma WroteSolid(fs: Fs, fs': Fs, d: nat, k: int, e: Entry, d': nat, k': int)
    requires Wrote(fs, fs', d, k, e) && Solid(fs, d', k') && (e.inum == 0 || Used(fs, e.inum))
    ensures Solid(fs', d', k')
  {
    assert d' in fs <==> d' in fs';
  }

  lemma WroteShaped(fs: Fs, fs': Fs, d: nat, k: int, e: Entry, d': nat)
    requires Wrote(fs, fs', d, k, e) && Shaped(fs, d') && Linked(fs, d)
    ensures Shaped(fs', d')
  {
  }

  /** The entry written and the one it replaces name no directory. */
  lemma WroteTree(fs: Fs, fs': Fs, d: nat, k: int, e: Entry, home: Home)
    requires Wrote(fs, fs', d, k, e) && Tree(fs, home) && 0 !in fs && !IsDir(fs, e.inum)
    requires k < |fs[d].entries| ==> !IsDir(fs, fs[d].entries[k].inum)
    ensures Tree(fs', home)
  {
    forall c ensures AtHome(fs', home, c) {
      assert AtHome(fs, home, c);
      if Linked(fs, c) && c != ROOT { WroteNames(fs, fs', d, k, e, home[c].0, home[c].1, c); }
    }
    forall d', k' ensures IsHome(fs', home, d', k') {
      assert IsHome(fs, home, d', k');
    }
  }

  /** A link to file i, counted already, is made in directory d: right if and only
      if d has not been removed. */
  lemma LinkKeeps(fs: Fs, pending: map<nat, nat>, home: Home, d: nat, name: string, i: nat)
    requires Inv(fs, pending, home) && IsDir(fs, d) && Used(fs, i) && !fs[i].kind.Dir? && Pend(pending, i) > 0
    requires Find(fs[d].entries, name, 0) == |fs[d].entries|
    ensures var fs', pending' := SetEntries(fs, d, Added(fs[d].entries, name, i)), pending[i := Pend(pending, i) - 1];
            && (Linked(fs, d) ==> Inv(fs', pending', home))
            && (!Linked(fs, d) ==> !Sound(fs', pending'))
  {
    hide Tree, Namers;
    var es, k, e := fs[d].entries, Slot(fs[d].entries, 0), Entry(i, name);
    var fs', pending' := SetEntries(fs, d, Added(es, name, i)), pending[i := Pend(pending, i) - 1];
    assert Shaped(fs, d);
    AddedUnique(es, name, i);
    assert Wrote(fs, fs', d, k, e);
    forall d', k', j
      ensures Names(fs', d', k', j) <==> if d' == d && k' == k then Linked(fs, d) && i == j else Names(fs, d', k', j)
    {
      WroteNames(fs, fs', d, k, e, d', k', j);
    }
    assert !Names(fs, d, k, i);
    forall j | j in fs' && Linked(fs, d) ensures Counted(fs', pending', j) {
      assert Counted(fs, pending, j);
      if j == i { NamersPlus(fs, fs', i, d, k); } else { NamersElse(fs, fs', j, d, k); }
    }
    if Linked(fs, d) {
      WroteTree(fs, fs', d, k, e, home);
      forall d' | d' in fs' ensures Shaped(fs', d') { WroteShaped(fs, fs', d, k, e, d'); }
    } else {
      assert Counted(fs, pending, i);
      NamersKept(fs, fs', i);
      assert !Counted(fs', pending', i);
    }
    forall d', k' ensures Solid(fs', d', k') { WroteSolid(fs, fs', d, k, e, d', k'); }
  }

  /** An entry that named nothing else and names nothing else now. */
  lemma NamersElse(fs: Fs, fs': Fs, j: nat, d: nat, k: int)
    requires !Names(fs, d, k, j) && !Names(fs', d, k, j)
    requires forall d', k' :: d' != d || k' != k ==> (Names(fs', d', k', j) <==> Names(fs, d', k', j))
    ensures Namers(fs', j) == Namers(fs, j)
  {
    hide Namers;
    NamersKept(fs, fs', j);
  }

  /** The entry of a file is erased; its count is still to come down. */
  lemma EraseKeeps(fs: Fs, pending: map<nat, nat>, home: Home, d: nat, k: int)
    requires Inv(fs, pending, home) && Linked(fs, d) && 2 <= k < |fs[d].entries| && fs[d].entries[k].inum != 0
    requires var i := fs[d].entries[k].inum; Used(fs, i) && !fs[i].kind.Dir? && fs[d].entries[k].name != DOT
    ensures var i := fs[d].entries[k].inum;
            Inv(SetEntries(fs, d, fs[d].entries[k := ERASED]), pending[i := Pend(pending, i) + 1], home)
  {
    hide Tree, Namers;
    var es, i := fs[d].entries, fs[d].entries[k].inum;
    var fs', pending' := SetEntries(fs, d, es[k := ERASED]), pending[i := Pend(pending, i) + 1];
    assert Shaped(fs, d);
    EraseUnique(es, k);
    assert Wrote(fs, fs', d, k, ERASED);
    forall d', k', j | j in fs ensures Names(fs', d', k', j) <==> (d' != d || k' != k) && Names(fs, d', k', j) {
      WroteNames(fs, fs', d, k, ERASED, d', k', j);
    }
    forall j | j in fs' ensures Counted(fs', pending', j) {
      assert Counted(fs, pending, j);
      if j == i { NamersPlus(fs', fs, i, d, k); } else { NamersElse(fs, fs', j, d, k); }
    }
    WroteTree(fs, fs', d, k, ERASED, home);
    forall d', k' ensures Solid(fs', d', k') { WroteSolid(fs, fs', d, k, ERASED, d', k'); }
    forall d' | d' in fs' ensures Shaped(fs', d') { WroteShaped(fs, fs', d, k, ERASED, d'); }
  }

  lemma EraseUnique(es: seq<Entry>, k: int)
    requires Unique(es) && 0 <= k < |es|
    ensures Unique(es[k := ERASED])
  {
    var es' := es[k := ERASED];
    forall i, j | 0 <= i < j < |es'| ensures Differ(es', i, j) {
      assert Differ(es, i, j);
    }
  }

  // ---- create ----

  /** Nothing names an inode that is not in use. */
  lemma NoNamers(fs: Fs, pending: map<nat, nat>, i: nat, d: nat, k: int)
    requires Sound(fs, pending) && 0 !in fs && i in fs && fs[i].kind.Unused?
    ensures !Names(fs, d, k, i)
  {
    assert Solid(fs, d, k);
  }

  /** A new file, its one link counted and not yet made. */
  lemma AllocKeeps(fs: Fs, pending: map<nat, nat>, home: Home, i: nat)
    requires Inv(fs, pending, home) && i in fs && fs[i].kind.Unused?
    ensures Inv(fs[i := Inode(File, 1, [])], pending[i := 1], home)
  {
    hide Tree, Namers;
    var fs', pending' := fs[i := Inode(File, 1, [])], pending[i := 1];
    forall d, k, j ensures Names(fs', d, k, j) <==> Names(fs, d, k, j) { assert d in fs <==> d in fs'; }
    forall j | j in fs' ensures Counted(fs', pending', j) {
      assert Counted(fs, pending, j);
      NamersKept(fs, fs', j);
      if j == i { Nameless(fs, pending, i); }
    }
    forall d, k ensures Solid(fs', d, k) { assert Solid(fs, d, k) && (d in fs <==> d in fs'); }
    forall d | d in fs' ensures Shaped(fs', d) { assert Shaped(fs, d); }
    FileTree(fs, pending, home, i);
  }

  lemma Nameless(fs: Fs, pending: map<nat, nat>, i: nat)
    requires Sound(fs, pending) && 0 !in fs && i in fs && fs[i].kind.Unused?
    ensures Namers(fs, i) == {}
  {
    forall x | x in Namers(fs, i) ensures false {
      NoNamers(fs, pending, i, x.0, x.1);
    }
  }

  lemma FileTree(fs: Fs, pending: map<nat, nat>, home: Home, i: nat)
    requires Tree(fs, home) && i in fs && fs[i].kind.Unused?
    ensures Tree(fs[i := Inode(File, 1, [])], home)
  {
    var fs' := fs[i := Inode(File, 1, [])];
    forall c ensures AtHome(fs', home, c) { assert AtHome(fs, home, c); }
    forall d, k ensures IsHome(fs', home, d, k) { assert IsHome(fs, home, d, k); }
  }

  function NewDir(i: nat, d: nat): Inode {
    Inode(Dir, 1, [Entry(i, DOT), Entry(d, DOTDOT)])
  }

  /** create of a directory i in d. */
  function Made(fs: Fs, d: nat, name: string, i: nat): Fs
    requires d in fs
  {
    fs[i := NewDir(i, d)][d := Inode(fs[d].kind, fs[d].nlink + 1, Added(fs[d].entries, name, i))]
  }

  lemma MadeNames(fs: Fs, pending: map<nat, nat>, d: nat, name: string, i: nat, d': nat, k': int, j: nat)
    requires 0 !in fs && IsDir(fs, d) && i in fs && fs[i].kind.Unused? && Shaped(fs, d)
             && Find(fs[d].entries, name, 0) == |fs[d].entries|
    requires Linked(fs, d) && j in fs
    ensures var k := Slot(fs[d].entries, 0);
            Names(Made(fs, d, name, i), d', k', j) <==>
              if d' == d && k' == k then i == j else if d' == i then k' == 1 && j == d else Names(fs, d', k', j)
  {
    AddedUnique(fs[d].entries, name, i);
    assert d' in fs <==> d' in Made(fs, d, name, i);
  }

  lemma MadeCounted(fs: Fs, pending: map<nat, nat>, d: nat, name: string, i: nat, j: nat)
    requires Sound(fs, pending) && 0 !in fs && i in fs && fs[i].kind.Unused? && Pend(pending, i) == 0 && j in fs
    requires Linked(fs, d) && Shaped(fs, d) && Find(fs[d].entries, name, 0) == |fs[d].entries|
    ensures Counted(Made(fs, d, name, i), pending, j)
  {
    hide Namers;
    var fs', k := Made(fs, d, name, i), Slot(fs[d].entries, 0);
    assert Counted(fs, pending, j);
    AddedUnique(fs[d].entries, name, i);
    forall d', k' ensures Names(fs', d', k', j) <==>
      if d' == d && k' == k then i == j else if d' == i then k' == 1 && j == d else Names(fs, d', k', j)
    {
      MadeNames(fs, pending, d, name, i, d', k', j);
    }
    assert !Names(fs, i, 1, j) && !Names(fs, d, k, j);
    if j == i {
      Nameless(fs, pending, i);
      NamersPlus(fs, fs', i, d, k);
    } else if j == d {
      NamersPlus(fs, fs', d, i, 1);
    } else {
      NamersKept(fs, fs', j);
    }
  }

  lemma MadeAtHome(fs: Fs, pending: map<nat, nat>, home: Home, d: nat, name: string, i: nat, c: nat)
    requires AtHome(fs, home, c) && Linked(fs, ROOT) && 0 !in fs && i in fs && fs[i].kind.Unused?
    requires Linked(fs, d) && Shaped(fs, d) && Find(fs[d].entries, name, 0) == |fs[d].entries|
    ensures AtHome(Made(fs, d, name, i), home[i := (d, Slot(fs[d].entries, 0))], c)
  {
    AddedUnique(fs[d].entries, name, i);
    if c != i && Linked(fs, c) && c != ROOT { MadeNames(fs, pending, d, name, i, home[c].0, home[c].1, c); }
  }

  lemma MadeIsHome(fs: Fs, home: Home, d: nat, name: string, i: nat, d': nat, k': int)
    requires IsHome(fs, home, d', k') && Solid(fs, d', k') && Linked(fs, ROOT) && 0 !in fs && i in fs
             && fs[i].kind.Unused?
    requires Linked(fs, d) && Shaped(fs, d) && Find(fs[d].entries, name, 0) == |fs[d].entries|
    ensures IsHome(Made(fs, d, name, i), home[i := (d, Slot(fs[d].entries, 0))], d', k')
  {
    AddedUnique(fs[d].entries, name, i);
  }

  lemma MadeTree(fs: Fs, pending: map<nat, nat>, home: Home, d: nat, name: string, i: nat)
    requires Sound(fs, pending) && Tree(fs, home) && 0 !in fs && i in fs && fs[i].kind.Unused?
    requires Linked(fs, d) && Shaped(fs, d) && Find(fs[d].entries, name, 0) == |fs[d].entries|
    ensures Tree(Made(fs, d, name, i), home[i := (d, Slot(fs[d].entries, 0))])
  {
    hide AtHome, IsHome, Solid;
    var fs', home' := Made(fs, d, name, i), home[i := (d, Slot(fs[d].entries, 0))];
    AddedUnique(fs[d].entries, name, i);
    forall c ensures AtHome(fs', home', c) { MadeAtHome(fs, pending, home, d, name, i, c); }
    forall d', k' ensures IsHome(fs', home', d', k') { MadeIsHome(fs, home, d, name, i, d', k'); }
  }

  /** create of a directory: right if and only if its parent has not been removed. */
  lemma MkdirKeeps(fs: Fs, pending: map<nat, nat>, home: Home, d: nat, name: string, i: nat)
    requires Inv(fs, pending, home) && IsDir(fs, d) && i in fs && fs[i].kind.Unused?
    requires Find(fs[d].entries, name, 0) == |fs[d].entries|
    ensures Linked(fs, d) ==> Inv(Made(fs, d, name, i), pending, home[i := (d, Slot(fs[d].entries, 0))])
    ensures !Linked(fs, d) ==> !Sound(Made(fs, d, name, i), pending)
  {
    hide Tree, Namers;
    var fs' := Made(fs, d, name, i);
    assert Shaped(fs, d);
    assert Pend(pending, i) == 0;
    AddedUnique(fs[d].entries, name, i);
    if Linked(fs, d) {
      forall j | j in fs' ensures Counted(fs', pending, j) { MadeCounted(fs, pending, d, name, i, j); }
      forall d', k' ensures Solid(fs', d', k') { assert Solid(fs, d', k') && (d' in fs <==> d' in fs'); }
      forall d' | d' in fs' ensures Shaped(fs', d') { assert Shaped(fs, d'); }
      MadeTree(fs, pending, home, d, name, i);
    } else {
      MadeInRemoved(fs, pending, d, name, i);
    }
  }

  lemma MadeInRemoved(fs: Fs, pending: map<nat, nat>, d: nat, name: string, i: nat)
    requires Sound(fs, pending) && 0 !in fs && i in fs && fs[i].kind.Unused? && Pend(pending, i) == 0
    requires IsDir(fs, d) && !Linked(fs, d) && Shaped(fs, d) && Find(fs[d].entries, name, 0) == |fs[d].entries|
    ensures !Sound(Made(fs, d, name, i), pending)
  {
    hide Namers;
    var fs', k, p := Made(fs, d, name, i), Slot(fs[d].entries, 0), fs[d].entries[1].inum;
    AddedUnique(fs[d].entries, name, i);
    assert Counted(fs, pending, d) && Linked(fs', d) && Names(fs', d, 1, p) && Names(fs', i, 1, d)
           && Names(fs', d, k, i);
    if !Used(fs', p) {
      assert !Solid(fs', d, 1);
    } else if p == i {
      AtLeastTwo(fs', i, d, 1, d, k);
      assert !Counted(fs', pending, i);
    } else if p == d {
      AtLeastTwo(fs', d, d, 1, i, 1);
      assert !Counted(fs', pending, d);
    } else {
      assert Counted(fs, pending, p);
      forall d', k' ensures Names(fs, d', k', p) ==> Names(fs', d', k', p) { assert d' in fs <==> d' in fs'; }
      AtLeastMore(fs, fs', p, d, 1);
      assert !Counted(fs', pending, p);
    }
  }

  lemma AtLeastTwo(fs: Fs, i: nat, d: nat, k: int, d': nat, k': int)
    requires Names(fs, d, k, i) && Names(fs, d', k', i) && (d, k) != (d', k')
    ensures |Namers(fs, i)| >= 2
  {
    InNamers(fs, i, d, k);
    InNamers(fs, i, d', k');
    Sets.SubsetSize({(d, k), (d', k')}, Namers(fs, i));
  }

  lemma AtLeastMore(fs: Fs, fs': Fs, i: nat, d: nat, k: int)
    requires !Names(fs, d, k, i) && Names(fs', d, k, i)
             && forall d', k' :: Names(fs, d', k', i) ==> Names(fs', d', k', i)
    ensures |Namers(fs', i)| > |Namers(fs, i)|
  {
    forall x | x in Namers(fs, i) ensures x in Namers(fs', i) { InNamers(fs', i, x.0, x.1); }
    InNamers(fs, i, d, k);
    InNamers(fs', i, d, k);
    Sets.SubsetSize(Namers(fs, i) + {(d, k)}, Namers(fs', i));
  }

  // ---- removing a directory, and an inode ----

  /** unlink of the empty directory that entry k of d names. */
  function Removed(fs: Fs, d: nat, k: int): Fs
    requires d in fs && 0 <= k < |fs[d].entries| && fs[d].entries[k].inum in fs
  {
    var i := fs[d].entries[k].inum;
    fs[d := Inode(fs[d].kind, fs[d].nlink - 1, fs[d].entries[k := ERASED])][i := fs[i].(nlink := fs[i].nlink - 1)]
  }

  /** An empty directory is named once, by its entry in its parent. */
  lemma OnlyNamer(fs: Fs, home: Home, d: nat, k: int, d': nat, k': int)
    requires Linked(fs, d) && 2 <= k < |fs[d].entries| && 0 !in fs
    requires IsHome(fs, home, d, k) && IsHome(fs, home, d', k') && AtHome(fs, home, d') && Shaped(fs, d')
    requires Linked(fs, ROOT) && |fs[ROOT].entries| >= 2 && fs[ROOT].entries[1].inum == ROOT
    requires var i := fs[d].entries[k].inum; IsDir(fs, i) && Empty(fs[i].entries) && Names(fs, d', k', i)
    ensures d' == d && k' == k
  {
  }

  lemma TreeFacts(fs: Fs, home: Home, d: nat, k: int, d': nat, k': int)
    requires Tree(fs, home)
    ensures IsHome(fs, home, d, k) && IsHome(fs, home, d', k') && AtHome(fs, home, d')
    ensures Linked(fs, ROOT) && |fs[ROOT].entries| >= 2 && fs[ROOT].entries[1].inum == ROOT
  {
  }

  lemma NamedOnce(fs: Fs, pending: map<nat, nat>, home: Home, d: nat, k: int)
    requires Inv(fs, pending, home) && Linked(fs, d) && 2 <= k < |fs[d].entries|
    requires var i := fs[d].entries[k].inum; IsDir(fs, i) && Empty(fs[i].entries) && fs[d].entries[k].name != DOT
    ensures var i := fs[d].entries[k].inum;
            Namers(fs, i) == {(d, k)} && fs[i].nlink == 1 && Linked(fs, i) && Pend(pending, i) == 0
  {
    hide Tree, Solid, Shaped, Unique;
    var i := fs[d].entries[k].inum;
    assert Names(fs, d, k, i) && Counted(fs, pending, i);
    InNamers(fs, i, d, k);
    forall x | x in Namers(fs, i) ensures x == (d, k) {
      TreeFacts(fs, home, d, k, x.0, x.1);
      OnlyNamer(fs, home, d, k, x.0, x.1);
    }
    assert Namers(fs, i) == {(d, k)};
  }

  /** Its parent has other links than its "..". */
  lemma ParentStays(fs: Fs, pending: map<nat, nat>, home: Home, d: nat, k: int)
    requires Inv(fs, pending, home) && Linked(fs, d) && 2 <= k < |fs[d].entries|
    requires var i := fs[d].entries[k].inum; Linked(fs, i) && Empty(fs[i].entries)
    ensures var i := fs[d].entries[k].inum;
            i != d && i != ROOT && |fs[i].entries| >= 2 && fs[i].entries[1].inum == d && Names(fs, i, 1, d)
            && fs[d].nlink >= 2 && Pend(pending, d) == 0
  {
    hide Solid, Unique, Namers;
    var i := fs[d].entries[k].inum;
    assert IsHome(fs, home, d, k) && Counted(fs, pending, d) && AtHome(fs, home, i) && AtHome(fs, home, d)
           && Shaped(fs, i) && Shaped(fs, d);
    assert Names(fs, i, 1, d);
    if d == ROOT {
      AtLeastTwo(fs, d, d, 1, i, 1);
    } else {
      AtLeastTwo(fs, d, home[d].0, home[d].1, i, 1);
    }
  }

  /** Removing it: everything but the two entries counts as before. */
  lemma RemovedNames(fs: Fs, d: nat, k: int, d': nat, k': int, j: nat)
    requires 0 !in fs && Linked(fs, d) && 2 <= k < |fs[d].entries| && j in fs && fs[d].nlink >= 2
    requires var i := fs[d].entries[k].inum;
             Linked(fs, i) && Empty(fs[i].entries) && fs[i].nlink == 1 && i != d && Shaped(fs, i)
             && fs[i].entries[1].inum == d
    ensures var i := fs[d].entries[k].inum;
            Names(Removed(fs, d, k), d', k', j) <==> Names(fs, d', k', j) && !(d' == d && k' == k) && d' != i
    ensures var i := fs[d].entries[k].inum; Names(fs, i, k', j) <==> k' == 1 && j == d
  {
    assert d' in fs <==> d' in Removed(fs, d, k);
  }

  lemma RemovedCounted(fs: Fs, pending: map<nat, nat>, home: Home, d: nat, k: int, j: nat)
    requires Inv(fs, pending, home) && Linked(fs, d) && 2 <= k < |fs[d].entries| && j in fs
    requires var i := fs[d].entries[k].inum; IsDir(fs, i) && Empty(fs[i].entries) && fs[d].entries[k].name != DOT
    ensures Counted(Removed(fs, d, k), pending, j)
  {
    hide Tree, Solid, Unique, Namers;
    var i, fs' := fs[d].entries[k].inum, Removed(fs, d, k);
    NamedOnce(fs, pending, home, d, k);
    ParentStays(fs, pending, home, d, k);
    assert Counted(fs, pending, j) && Shaped(fs, i);
    forall d', k'
      ensures Names(fs', d', k', j) <==> Names(fs, d', k', j) && !(d' == d && k' == k) && d' != i
      ensures Names(fs, i, k', j) <==> k' == 1 && j == d
    {
      RemovedNames(fs, d, k, d', k', j);
    }
    if j == i {
      NamersPlus(fs', fs, i, d, k);
    } else if j == d {
      NamersPlus(fs', fs, d, i, 1);
    } else {
      NamersKept(fs, fs', j);
    }
  }

  lemma RemovedAtHome(fs: Fs, home: Home, d: nat, k: int, c: nat)
    requires 0 !in fs && AtHome(fs, home, c) && Linked(fs, d) && 2 <= k < |fs[d].entries| && fs[d].nlink >= 2
    requires var i := fs[d].entries[k].inum;
             Linked(fs, i) && Empty(fs[i].entries) && fs[i].nlink == 1 && i != d && i != ROOT
    ensures AtHome(Removed(fs, d, k), home, c)
  {
  }

  lemma RemovedIsHome(fs: Fs, home: Home, d: nat, k: int, d': nat, k': int)
    requires 0 !in fs && IsHome(fs, home, d', k') && Linked(fs, d) && 2 <= k < |fs[d].entries| && fs[d].nlink >= 2
    requires var i := fs[d].entries[k].inum; Linked(fs, i) && i != d
    ensures IsHome(Removed(fs, d, k), home, d', k')
  {
  }

  lemma RemovedTree(fs: Fs, home: Home, d: nat, k: int)
    requires 0 !in fs && Tree(fs, home) && Linked(fs, d) && 2 <= k < |fs[d].entries| && fs[d].nlink >= 2
    requires var i := fs[d].entries[k].inum;
             Linked(fs, i) && Empty(fs[i].entries) && fs[i].nlink == 1 && i != d && i != ROOT
    ensures Tree(Removed(fs, d, k), home)
  {
    hide AtHome, IsHome;
    var fs' := Removed(fs, d, k);
    forall c ensures AtHome(fs', home, c) { RemovedAtHome(fs, home, d, k, c); }
    forall d', k' ensures IsHome(fs', home, d', k') { RemovedIsHome(fs, home, d, k, d', k'); }
  }

  lemma RmdirKeeps(fs: Fs, pending: map<nat, nat>, home: Home, d: nat, k: int)
    requires Inv(fs, pending, home) && Linked(fs, d) && 2 <= k < |fs[d].entries|
    requires var i := fs[d].entries[k].inum; IsDir(fs, i) && Empty(fs[i].entries) && fs[d].entries[k].name != DOT
    ensures Inv(Removed(fs, d, k), pending, home)
  {
    hide Tree, Namers;
    var i, fs' := fs[d].entries[k].inum, Removed(fs, d, k);
    NamedOnce(fs, pending, home, d, k);
    ParentStays(fs, pending, home, d, k);
    RemovedTree(fs, home, d, k);
    EraseUnique(fs[d].entries, k);
    forall j | j in fs' ensures Counted(fs', pending, j) { RemovedCounted(fs, pending, home, d, k, j); }
    forall d', k' ensures Solid(fs', d', k') { assert Solid(fs, d', k') && (d' in fs <==> d' in fs'); }
    forall d' | d' in fs' ensures Shaped(fs', d') { assert Shaped(fs, d') && Shaped(fs, d); }
  }

  /** iput on the last reference to an inode without links: it is free again. */
  lemma ReclaimKeeps(fs: Fs, pending: map<nat, nat>, home: Home, i: nat)
    requires Inv(fs, pending, home) && Used(fs, i) && fs[i].nlink == 0
    ensures Inv(fs[i := Inode(Unused, 0, [])], pending, home)
  {
    hide Tree, Namers;
    var fs' := fs[i := Inode(Unused, 0, [])];
    assert Counted(fs, pending, i);
    forall d, k ensures !Names(fs, d, k, i) { InNamers(fs, i, d, k); }
    forall d, k, j ensures Names(fs', d, k, j) <==> Names(fs, d, k, j) { assert d in fs <==> d in fs'; }
    forall j | j in fs' ensures Counted(fs', pending, j) {
      assert Counted(fs, pending, j);
      NamersKept(fs, fs', j);
    }
    forall d, k ensures Solid(fs', d, k) {
      assert Solid(fs, d, k) && !Names(fs, d, k, i) && (d in fs ==> Shaped(fs, d));
      ReclaimSolid(fs, i, d, k);
    }
    forall d | d in fs' ensures Shaped(fs', d) { assert Shaped(fs, d); }
    ReclaimTree(fs, pending, home, i);
  }

  lemma ReclaimSolid(fs: Fs, i: nat, d: nat, k: int)
    requires 0 !in fs && i in fs && fs[i].nlink == 0 && Solid(fs, d, k) && !Names(fs, d, k, i)
             && (d in fs ==> Shaped(fs, d))
    ensures Solid(fs[i := Inode(Unused, 0, [])], d, k)
  {
    if Linked(fs, d) && 0 < k < |fs[d].entries| { assert Differ(fs[d].entries, 0, k); }
  }

  lemma ReclaimTree(fs: Fs, pending: map<nat, nat>, home: Home, i: nat)
    requires Tree(fs, home) && i in fs && fs[i].nlink == 0
    ensures Tree(fs[i := Inode(Unused, 0, [])], home)
  {
    var fs' := fs[i := Inode(Unused, 0, [])];
    forall c ensures AtHome(fs', home, c) { assert AtHome(fs, home, c); }
    forall d, k ensures IsHome(fs', home, d, k) { assert IsHome(fs, home, d, k); }
  }
}
