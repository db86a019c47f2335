/** Physical pages, page directories and page tables (mmu.h, memlayout.h, vm.c),
    and who owns each page. Page frames and virtual pages are numbered, so an
    address a is frame or page a / 4096. */
module Paging {
  import Sets

  const NWORDS: nat := 1024
  const NFRAMES: nat := 0xE000        // PHYSTOP / PGSIZE
  const UPAGES: nat := 0x80000        // KERNBASE / PGSIZE
  const VPAGES: nat := 0x100000
  const PGSIZE: nat := 4096

  /** A page of 32-bit words. */
  datatype Page = Page(words: seq<nat>)

  /** What a page frame is used for: on the free list; handed out by kalloc and
      not in any address space; a page directory; the page table in entry i of
      directory d; or the user memory at virtual page p of directory d. */
  datatype Use = Free | Loose | Dir | Table(d: nat, i: nat) | User(d: nat, p: nat)

  datatype Vm = Vm(mem: seq<Page>, free: seq<nat>, use: map<nat, Use>)

  function Word(mem: seq<Page>, f: nat, i: nat): nat {
    if f < |mem| && i < |mem[f].words| then mem[f].words[i] else 0
  }

  function Put(mem: seq<Page>, f: nat, i: nat, w: nat): seq<Page> {
    if f < |mem| && i < |mem[f].words| then mem[f := Page(mem[f].words[i := w])] else mem
  }

  function Filled(w: nat): (r: Page)
    ensures |r.words| == NWORDS && forall i :: 0 <= i < NWORDS ==> r.words[i] == w
  {
    Page(seq(NWORDS, _ => w))
  }

  predicate Present(w: nat) { w % 2 == 1 }

  function Frame(w: nat): nat { w / PGSIZE }

  function Flags(w: nat): nat { w % PGSIZE }

  predicate Writable(w: nat) { Flags(w) / 2 % 2 == 1 }

  predicate ForUser(w: nat) { Flags(w) / 4 % 2 == 1 }

  lemma EntryParts(f: nat, flags: nat)
    requires flags < PGSIZE
    ensures (f * PGSIZE + flags) / PGSIZE == f && (f * PGSIZE + flags) % PGSIZE == flags
    ensures (f * PGSIZE + flags) % 2 == flags % 2
  {
  }

  /** pa | perm | PTE_P for the frame f. */
  function Entry(f: nat, perm: nat): (w: nat)
    requires perm < PGSIZE
    ensures Present(w) && Frame(w) == f && Flags(w) == if Present(perm) then perm else perm + 1
  {
    var flags := if Present(perm) then perm else perm + 1;
    EntryParts(f, flags);
    f * PGSIZE + flags
  }

  /** The entry the hardware finds for virtual page p of directory d. */
  function Pte(mem: seq<Page>, d: nat, p: nat): nat {
    var pde := Word(mem, d, p / 1024);
    if Present(pde) then Word(mem, Frame(pde), p % 1024) else 0
  }

  /** What the hardware lets be done with a virtual page: whether it is mapped, whether it
      may be written, and whether user code may do so and read it. */
  datatype Access = Access(mapped: bool, write: bool, user: bool)

  const NO_ACCESS := Access(false, false, false)
  const USER_ACCESS := Access(true, true, true)

  /** The entry in the directory and the one in the table must both allow it. */
  function Grant(mem: seq<Page>, d: nat, p: nat): Access {
    var pde, pte := Word(mem, d, p / 1024), Pte(mem, d, p);
    if Present(pde) && Present(pte) then
      Access(true, Writable(pde) && Writable(pte), ForUser(pde) && ForUser(pte))
    else NO_ACCESS
  }

  // ---- ownership ----

  predicate IsDir(s: Vm, d: nat) { d in s.use && s.use[d].Dir? }

  ghost predicate Shaped(mem: seq<Page>) {
    |mem| == NFRAMES && forall f :: 0 <= f < NFRAMES ==> |mem[f].words| == NWORDS
  }

  /** Entry i of directory d points at a page that is that entry's own table, and leaves it
      to the table to say what is allowed. */
  predicate TableOk(s: Vm, d: nat, i: nat) {
    var pde := Word(s.mem, d, i);
    Present(pde) ==>
      Frame(pde) in s.use && s.use[Frame(pde)] == Table(d, i) && Writable(pde) && ForUser(pde)
  }

  /** Page p of directory d maps a page that is that virtual page's own memory. */
  predicate PageOk(s: Vm, d: nat, p: nat) {
    var pte := Pte(s.mem, d, p);
    Present(pte) ==> Frame(pte) in s.use && s.use[Frame(pte)] == User(d, p)
  }

  /** What a frame is said to be used for is really there. */
  predicate InUse(s: Vm, f: nat)
    requires f in s.use
  {
    match s.use[f]
    case Free => f in s.free
    case Table(d, i) => IsDir(s, d) && i < NWORDS && Present(Word(s.mem, d, i)) && Frame(Word(s.mem, d, i)) == f
    case User(d, p) => IsDir(s, d) && p < UPAGES && Present(Pte(s.mem, d, p)) && Frame(Pte(s.mem, d, p)) == f
    case _ => true
  }

  ghost predicate FreeOk(s: Vm) {
    Sets.NoDup(s.free) && forall k :: 0 <= k < |s.free| ==> s.free[k] in s.use && s.use[s.free[k]].Free?
  }

  /** Every frame from first up is free or has exactly one use: the use map gives
      it one, the directories and tables agree with the map both ways. */
  ghost predicate Inv(s: Vm, first: nat) {
    && Shaped(s.mem) && 0 < first <= NFRAMES
    && (forall f :: f in s.use <==> first <= f < NFRAMES)
    && FreeOk(s)
    && (forall d, i :: IsDir(s, d) && 0 <= i < NWORDS ==> TableOk(s, d, i))
    && (forall d, p :: IsDir(s, d) && 0 <= p < UPAGES ==> PageOk(s, d, p))
    && (forall f :: f in s.use ==> InUse(s, f))
  }

  // ---- one step at a time ----

  /** Writing a page that is neither a directory nor a table moves no mapping. */
  lemma SameSpaces(s: Vm, first: nat, f: nat, page: Page, d: nat, p: nat)
    requires Inv(s, first) && IsDir(s, d) && p < VPAGES && f < |s.mem|
    requires f in s.use ==> !s.use[f].Dir? && !s.use[f].Table?
    ensures Pte(s.mem[f := page], d, p) == Pte(s.mem, d, p)
    ensures forall i :: 0 <= i < NWORDS ==> Word(s.mem[f := page], d, i) == Word(s.mem, d, i)
  {
    assert TableOk(s, d, p / 1024);
  }

  /** Writing one entry of a table changes that virtual page and no other. */
  lemma OneEntry(s: Vm, first: nat, d: nat, p: nat, w: nat, d': nat, p': nat)
    requires Inv(s, first) && IsDir(s, d) && IsDir(s, d') && p < VPAGES && p' < VPAGES
    requires Present(Word(s.mem, d, p / 1024))
    ensures var t := Frame(Word(s.mem, d, p / 1024));
            && t < |s.mem| && t != d'
            && Pte(Put(s.mem, t, p % 1024, w), d', p') == if d' == d && p' == p then w else Pte(s.mem, d', p')
  {
    assert TableOk(s, d, p / 1024) && TableOk(s, d', p' / 1024);
  }

  /** Writing one entry of a directory changes that directory only. */
  lemma OneTable(s: Vm, first: nat, d: nat, i: nat, t: nat, flags: nat, d': nat, p': nat)
    requires Inv(s, first) && IsDir(s, d) && IsDir(s, d') && i < NWORDS && p' < VPAGES && flags < PGSIZE
    requires !Present(Word(s.mem, d, i))
    requires t in s.use && s.use[t].Loose? && s.mem[t] == Filled(0)
    ensures Pte(Put(s.mem, d, i, Entry(t, flags)), d', p') == Pte(s.mem, d', p')
  {
    assert TableOk(s, d', p' / 1024);
  }

  lemma FillInv(s: Vm, first: nat, f: nat, page: Page)
    requires Inv(s, first) && f in s.use && s.use[f].Loose? && |page.words| == NWORDS
    ensures Inv(s.(mem := s.mem[f := page]), first)
  {
    var s' := s.(mem := s.mem[f := page]);
    SpacesMove(s, s', first, f, page);
  }

  /** With every mapping where it was, only the free list can break. */
  lemma SpacesMove(s: Vm, s': Vm, first: nat, f: nat, page: Page)
    requires Inv(s, first) && f in s.use && !s.use[f].Dir? && !s.use[f].Table? && !s.use[f].User?
             && |page.words| == NWORDS
    requires s'.mem == s.mem[f := page] && s'.use.Keys == s.use.Keys && FreeOk(s')
    requires forall g :: g in s.use && g != f ==> s'.use[g] == s.use[g]
    requires !s'.use[f].Dir? && !s'.use[f].Table? && !s'.use[f].User? && InUse(s', f)
    requires forall g :: g in s.use && g != f && s.use[g].Free? ==> g in s'.free
    ensures Inv(s', first)
  {
    forall d, i | IsDir(s', d) && 0 <= i < NWORDS ensures TableOk(s', d, i) {
      assert TableOk(s, d, i);
    }
    forall d, p | IsDir(s', d) && 0 <= p < UPAGES ensures PageOk(s', d, p) {
      assert PageOk(s, d, p);
      SameSpaces(s, first, f, page, d, p);
    }
    forall g | g in s'.use ensures InUse(s', g) {
      assert InUse(s, g);
      if g != f && s.use[g].User? { SameSpaces(s, first, f, page, s.use[g].d, s.use[g].p); }
    }
  }

  lemma TakeInv(s: Vm, first: nat)
    requires Inv(s, first) && s.free != []
    ensures s.free[0] in s.use && s.free[0] != 0
            && Inv(s.(free := s.free[1..], use := s.use[s.free[0] := Loose]), first)
  {
    var f := s.free[0];
    var s' := s.(free := s.free[1..], use := s.use[f := Loose]);
    assert s.mem[f := s.mem[f]] == s.mem;
    forall g | g in s.use && g != f && s.use[g].Free? ensures g in s'.free {
      assert InUse(s, g);
      var k :| 0 <= k < |s.free| && s.free[k] == g;
      assert s'.free[k - 1] == g;
    }
    SpacesMove(s, s', first, f, s.mem[f]);
  }

  lemma GiveInv(s: Vm, first: nat, f: nat, page: Page)
    requires Inv(s, first) && f in s.use && s.use[f].Loose? && |page.words| == NWORDS
    ensures Inv(Vm(s.mem[f := page], [f] + s.free, s.use[f := Free]), first)
  {
    var s' := Vm(s.mem[f := page], [f] + s.free, s.use[f := Free]);
    assert s'.free[0] == f;
    forall g | g in s.use && g != f && s.use[g].Free? ensures g in s'.free {
      assert InUse(s, g);
    }
    SpacesMove(s, s', first, f, page);
  }

  /** A page is accessible as its entry says: the directory takes nothing away. */
  lemma GrantIsEntry(s: Vm, first: nat, d: nat, p: nat)
    requires Inv(s, first) && IsDir(s, d) && p < VPAGES
    ensures var pte := Pte(s.mem, d, p);
            Grant(s.mem, d, p) == if Present(pte) then Access(true, Writable(pte), ForUser(pte)) else NO_ACCESS
  {
    assert TableOk(s, d, p / 1024);
  }

  /** A zeroed page becomes a table. */
  lemma TableInv(s: Vm, first: nat, d: nat, i: nat, t: nat, flags: nat)
    requires Inv(s, first) && IsDir(s, d) && i < NWORDS && flags < PGSIZE
             && Writable(Entry(t, flags)) && ForUser(Entry(t, flags))
    requires !Present(Word(s.mem, d, i))
    requires t in s.use && s.use[t].Loose? && s.mem[t] == Filled(0)
    ensures Inv(s.(mem := Put(s.mem, d, i, Entry(t, flags)), use := s.use[t := Table(d, i)]), first)
  {
    var s' := s.(mem := Put(s.mem, d, i, Entry(t, flags)), use := s.use[t := Table(d, i)]);
    forall d', i' | IsDir(s', d') && 0 <= i' < NWORDS ensures TableOk(s', d', i') {
      assert TableOk(s, d', i');
    }
    forall d', p | IsDir(s', d') && 0 <= p < UPAGES ensures PageOk(s', d', p) {
      assert PageOk(s, d', p);
      OneTable(s, first, d, i, t, flags, d', p);
    }
    forall g | g in s'.use ensures InUse(s', g) {
      assert InUse(s, g);
      if s.use[g].User? { OneTable(s, first, d, i, t, flags, s.use[g].d, s.use[g].p); }
    }
  }

  /** Mapping a virtual page that was not mapped; a user page takes its frame over. */
  lemma MapInv(s: Vm, first: nat, d: nat, p: nat, w: nat)
    requires Inv(s, first) && IsDir(s, d) && p < VPAGES
    requires Present(Word(s.mem, d, p / 1024)) && !Present(Pte(s.mem, d, p)) && Present(w)
    requires p < UPAGES ==> Frame(w) in s.use && s.use[Frame(w)].Loose?
    ensures var t := Frame(Word(s.mem, d, p / 1024));
            && t in s.use && s.use[t] == Table(d, p / 1024)
            && var use := if p < UPAGES then s.use[Frame(w) := User(d, p)] else s.use;
            && Inv(s.(mem := Put(s.mem, t, p % 1024, w), use := use), first)
  {
    assert TableOk(s, d, p / 1024);
    var t := Frame(Word(s.mem, d, p / 1024));
    var s' := s.(mem := Put(s.mem, t, p % 1024, w), use := if p < UPAGES then s.use[Frame(w) := User(d, p)] else s.use);
    forall d', i | IsDir(s', d') && 0 <= i < NWORDS ensures TableOk(s', d', i) {
      assert TableOk(s, d', i);
    }
    forall d', p' | IsDir(s', d') && 0 <= p' < UPAGES ensures PageOk(s', d', p') {
      assert PageOk(s, d', p');
      OneEntry(s, first, d, p, w, d', p');
    }
    forall g | g in s'.use ensures InUse(s', g) {
      assert InUse(s, g);
      OneEntry(s, first, d, p, w, d, p);
      if s.use[g].User? { OneEntry(s, first, d, p, w, s.use[g].d, s.use[g].p); }
    }
  }

  /** Freeing a user page and clearing its entry. */
  lemma UnmapInv(s: Vm, first: nat, d: nat, p: nat, page: Page)
    requires Inv(s, first) && IsDir(s, d) && p < UPAGES && Present(Pte(s.mem, d, p)) && |page.words| == NWORDS
    ensures var t, f := Frame(Word(s.mem, d, p / 1024)), Frame(Pte(s.mem, d, p));
            && t in s.use && s.use[t] == Table(d, p / 1024) && f in s.use && s.use[f] == User(d, p)
            && Inv(Vm(Put(s.mem[f := page], t, p % 1024, 0), [f] + s.free, s.use[f := Free]), first)
  {
    assert TableOk(s, d, p / 1024) && PageOk(s, d, p);
    var t, f := Frame(Word(s.mem, d, p / 1024)), Frame(Pte(s.mem, d, p));
    var mem := Put(s.mem, t, p % 1024, 0);
    var s' := Vm(Put(s.mem[f := page], t, p % 1024, 0), [f] + s.free, s.use[f := Free]);
    assert s'.mem == mem[f := page] && s'.free[0] == f;
    forall d', i | IsDir(s', d') && 0 <= i < NWORDS ensures TableOk(s', d', i) {
      assert TableOk(s, d', i);
    }
    forall d', p' | IsDir(s', d') && 0 <= p' < VPAGES
      ensures Pte(s'.mem, d', p') == if d' == d && p' == p then 0 else Pte(s.mem, d', p')
    {
      Unmapped(s, first, d, p, page, d', p');
    }
    forall d', p' | IsDir(s', d') && 0 <= p' < UPAGES ensures PageOk(s', d', p') {
      assert PageOk(s, d', p');
    }
    forall g | g in s'.use ensures InUse(s', g) {
      assert InUse(s, g);
    }
  }

  lemma Unmapped(s: Vm, first: nat, d: nat, p: nat, page: Page, d': nat, p': nat)
    requires Inv(s, first) && IsDir(s, d) && p < UPAGES && Present(Pte(s.mem, d, p)) && |page.words| == NWORDS
    requires IsDir(s, d') && p' < VPAGES
    ensures var t, f := Frame(Word(s.mem, d, p / 1024)), Frame(Pte(s.mem, d, p));
            && t < |s.mem| && f < |s.mem|
            && Pte(Put(s.mem[f := page], t, p % 1024, 0), d', p')
               == if d' == d && p' == p then 0 else Pte(s.mem, d', p')
  {
    assert TableOk(s, d, p / 1024) && PageOk(s, d, p) && TableOk(s, d', p' / 1024);
    OneEntry(s, first, d, p, 0, d', p');
  }

  /** A zeroed page becomes an empty directory. */
  lemma DirInv(s: Vm, first: nat, d: nat)
    requires Inv(s, first) && d in s.use && s.use[d].Loose? && s.mem[d] == Filled(0)
    ensures Inv(s.(use := s.use[d := Dir]), first)
  {
    var s' := s.(use := s.use[d := Dir]);
    forall d', i | IsDir(s', d') && 0 <= i < NWORDS ensures TableOk(s', d', i) {
      assert d' != d ==> TableOk(s, d', i);
    }
    forall d', p | IsDir(s', d') && 0 <= p < UPAGES ensures PageOk(s', d', p) {
      assert d' != d ==> PageOk(s, d', p);
    }
    forall g | g in s'.use ensures InUse(s', g) {
      assert InUse(s, g);
    }
  }

  /** d's directory page, tables and user pages. */
  predicate Mine(s: Vm, d: nat, f: nat) {
    f in s.use
    && (match s.use[f] case Dir => f == d case Table(e, _) => e == d case User(e, _) => e == d case _ => false)
  }

  /** The uses once directory d has been given up with no user page left. */
  function Dropped(s: Vm, d: nat): map<nat, Use> {
    map f | f in s.use :: if Mine(s, d, f) then Loose else s.use[f]
  }

  lemma DropInv(s: Vm, first: nat, d: nat)
    requires Inv(s, first) && IsDir(s, d)
    requires forall p :: 0 <= p < UPAGES ==> !Present(Pte(s.mem, d, p))
    ensures Inv(s.(use := Dropped(s, d)), first)
  {
    var s' := s.(use := Dropped(s, d));
    forall d', i | IsDir(s', d') && 0 <= i < NWORDS ensures TableOk(s', d', i) {
      assert TableOk(s, d', i);
    }
    forall d', p | IsDir(s', d') && 0 <= p < UPAGES ensures PageOk(s', d', p) {
      assert PageOk(s, d', p);
    }
    forall g | g in s'.use ensures InUse(s', g) {
      assert InUse(s, g);
    }
  }

  /** The entries of directory d that have a table. */
  ghost function Tables(mem: seq<Page>, d: nat): set<nat> {
    set i: nat | i < NWORDS && Present(Word(mem, d, i))
  }
}
