/** Building, growing, shrinking, copying and freeing address spaces (vm.c) on top
    of the physical page allocator (kalloc.c). */
module VirtualMemory {
  import opened Paging
  import opened Sets

  const KERNBASE: nat := 0x8000_0000
  const WRAP: nat := 0x1_0000_0000

  /** The number of pages that sz bytes take: PGROUNDUP(sz) / PGSIZE. */
  function Pages(sz: nat): (n: nat)
    ensures sz <= n * PGSIZE < sz + PGSIZE
  {
    (sz + PGSIZE - 1) / PGSIZE
  }

  // ---- the free list ----

  /** The word that points at the k-th page of the free list. */
  function Link(free: seq<nat>, k: nat): nat {
    if k < |free| then KERNBASE + free[k] * PGSIZE else 0
  }

  ghost predicate Linked(mem: seq<Page>, head: nat, free: seq<nat>) {
    head == Link(free, 0) && forall k :: 0 <= k < |free| ==> Word(mem, free[k], 0) == Link(free, k + 1)
  }

  /** The free list itself is sound, whatever the pages in use are for. */
  ghost predicate FreeList(mem: seq<Page>, head: nat, free: seq<nat>, first: nat) {
    && Shaped(mem) && 0 < first <= NFRAMES && Linked(mem, head, free) && NoDup(free)
    && forall k :: 0 <= k < |free| ==> first <= free[k] < NFRAMES
  }

  lemma LinkedKept(mem: seq<Page>, mem': seq<Page>, head: nat, free: seq<nat>)
    requires Linked(mem, head, free) && |mem'| == |mem|
    requires forall k :: 0 <= k < |free| && free[k] < |mem| ==> mem'[free[k]] == mem[free[k]]
    ensures Linked(mem', head, free)
  {
  }

  lemma Head(mem: seq<Page>, head: nat, free: seq<nat>)
    requires Linked(mem, head, free)
    ensures head == Link(free, 0)
  {
  }

  lemma Pop(mem: seq<Page>, head: nat, free: seq<nat>)
    requires Linked(mem, head, free) && head != 0
    ensures free != [] && head == KERNBASE + free[0] * PGSIZE && Linked(mem, Word(mem, free[0], 0), free[1..])
  {
    forall k | 0 <= k < |free[1..]| ensures Word(mem, free[1..][k], 0) == Link(free[1..], k + 1) {
      assert free[1..][k] == free[k + 1];
    }
  }

  /** What kfree leaves in a page. */
  function Junk(next: nat): (r: Page)
    ensures |r.words| == NWORDS && r.words[0] == next && forall i :: 1 <= i < NWORDS ==> r.words[i] == 0x0101_0101
  {
    Page(Filled(0x0101_0101).words[0 := next])
  }

  // ---- what steps on one address space leave alone ----

  predicate IsFree(s: Vm, f: nat) { f in s.use && s.use[f].Free? }

  predicate IsTable(s: Vm, d: nat, f: nat) { f in s.use && s.use[f].Table? && s.use[f].d == d }

  /** Frames that were loose before a step and may become user pages in it. */
  datatype Frames = Frames(lo: nat, n: nat)

  const NONE := Frames(0, 0)

  predicate In(x: Frames, f: int) { x.lo <= f < x.lo + x.n }

  /** One frame under a step that adds pages to directory d: what was in use keeps
      its use, and its contents unless it is d's own directory or table; a page
      taken from the free list is d's. */
  ghost predicate Added(s: Vm, s': Vm, d: nat, x: Frames, f: nat)
    requires f < |s.mem| && f < |s'.mem|
  {
    && (f in s.use <==> f in s'.use)
    && (IsFree(s, f) ==> IsFree(s', f) || Mine(s', d, f))
    && (!IsFree(s, f) ==>
        && (f in s.use && !In(x, f) ==> s'.use[f] == s.use[f])
        && (f in s.use && In(x, f) ==> !s'.use[f].Free? && !s'.use[f].Table?)
        && (f != d && !IsTable(s, d, f) ==> s'.mem[f] == s.mem[f]))
  }

  ghost predicate Grown(s: Vm, s': Vm, d: nat, x: Frames) {
    && |s.mem| == |s'.mem| == NFRAMES
    && forall f :: 0 <= f < NFRAMES ==> Added(s, s', d, x, f)
  }

  lemma GrownTrans(s: Vm, s': Vm, s'': Vm, d: nat, x: Frames)
    requires Grown(s, s', d, x) && Grown(s', s'', d, x)
    requires forall f :: 0 <= f < NFRAMES && In(x, f) ==> !IsFree(s, f) && !IsTable(s, d, f)
    ensures Grown(s, s'', d, x)
  {
    forall f | 0 <= f < NFRAMES ensures Added(s, s'', d, x, f) {
      assert Added(s, s', d, x, f) && Added(s', s'', d, x, f);
    }
  }

  /** Directories other than d see nothing of it. */
  lemma OtherSpaces(s: Vm, s': Vm, first: nat, d: nat, x: Frames, d': nat, p: nat)
    requires Inv(s, first) && Grown(s, s', d, x) && IsDir(s, d') && d' != d && p < VPAGES
    requires IsDir(s, d) || IsFree(s, d)
    requires forall f :: 0 <= f < NFRAMES && In(x, f) ==> f in s.use && s.use[f].Loose?
    ensures IsDir(s', d') && Pte(s'.mem, d', p) == Pte(s.mem, d', p)
  {
    assert Added(s, s', d, x, d') && TableOk(s, d', p / 1024);
    var pde := Word(s.mem, d', p / 1024);
    assert Present(pde) ==> Added(s, s', d, x, Frame(pde));
  }

  predicate Managed(first: nat, f: nat) { first <= f < NFRAMES }

  /** Every page past the kernel is free. */
  ghost function AllFree(first: nat): (r: map<nat, Use>)
    ensures forall f :: f in r <==> first <= f < NFRAMES
    ensures forall f :: f in r ==> r[f].Free?
  {
    map f: nat | first <= f < NFRAMES && Managed(first, f) :: Free
  }

  // ---- fork ----

  /** Page p of e holds what page p of d held, under the same flags. */
  predicate CopyOf(s0: Vm, s: Vm, d: nat, e: nat, p: nat) {
    var from, to := Pte(s0.mem, d, p), Pte(s.mem, e, p);
    && Present(to) && Flags(to) == Flags(from)
    && Frame(from) < |s0.mem| && Frame(to) < |s.mem| && s.mem[Frame(to)] == s0.mem[Frame(from)]
  }

  /** The new directory e has copies of d's first n pages, and the kernel's map. */
  ghost predicate Copied(s0: Vm, s: Vm, d: nat, e: nat, data: nat, n: nat) {
    && IsFree(s0, e) && Grown(s0, s, e, NONE)
    && (forall p :: 0 <= p < VPAGES ==>
          if p < n then CopyOf(s0, s, d, e, p) else Pte(s.mem, e, p) == KernelPte(data, p))
    && Tables(s.mem, e) == KTables(data, 4) + TableSpan(0, n)
    && |s.free| + |Tables(s.mem, e)| + n + 1 == |s0.free|
  }

  lemma CopiedNone(s0: Vm, s: Vm, d: nat, e: nat, data: nat)
    requires SetUp(s0, s, e, data, 4)
    ensures IsDir(s, e) && Copied(s0, s, d, e, data, 0)
  {
    hide Pte, Tables, KTables, TableSpan, Grown;
    assert TableSpan(0, 0) == {};
    assert Tables(s.mem, e) == KTables(data, 4) + TableSpan(0, 0);
  }

  /** The parent is as it was. */
  lemma ParentKept(s0: Vm, s: Vm, first: nat, d: nat, e: nat, data: nat, p: nat)
    requires Inv(s0, first) && IsDir(s0, d) && Copied(s0, s, d, e, data, p) && p < UPAGES
    ensures IsDir(s, d) && Pte(s.mem, d, p) == Pte(s0.mem, d, p) && !Present(Pte(s.mem, e, p))
    ensures Present(Pte(s0.mem, d, p)) ==>
              var f := Frame(Pte(s0.mem, d, p));
              f < |s.mem| == |s0.mem| && s.mem[f] == s0.mem[f] && |s.mem[f].words| == NWORDS
  {
    hide Pte, Tables, KTables;
    OtherSpaces(s0, s, first, e, NONE, d, p);
    if Present(Pte(s0.mem, d, p)) {
      PteFacts(s0, first, d, p);
      assert Added(s0, s, e, NONE, Frame(Pte(s0.mem, d, p)));
    }
  }

  /** The first page from p on, below n, that is not mapped; n if all are. */
  ghost function FirstMissing(mem: seq<Page>, d: nat, p: nat, n: nat): (m: nat)
    requires p <= n
    ensures p <= m <= n && (forall q :: p <= q < m ==> Present(Pte(mem, d, q))) && (m < n ==> !Present(Pte(mem, d, m)))
    decreases n - p
  {
    if p == n || !Present(Pte(mem, d, p)) then p else FirstMissing(mem, d, p + 1, n)
  }

  lemma NoTablePte(mem: seq<Page>, d: nat, p: nat)
    requires !Present(Word(mem, d, p / 1024))
    ensures !Present(Pte(mem, d, p))
  {
  }

  lemma CopiedNext(s0: Vm, s: Vm, s': Vm, first: nat, d: nat, e: nat, data: nat, p: nat, f: nat)
    requires Inv(s0, first) && Inv(s, first) && IsDir(s0, d) && IsDir(s, e) && p < UPAGES && Present(Pte(s0.mem, d, p))
    requires Copied(s0, s, d, e, data, p) && Frame(Pte(s0.mem, d, p)) < |s0.mem|
    requires OnePage(s, s', e, p, f, s0.mem[Frame(Pte(s0.mem, d, p))], Flags(Pte(s0.mem, d, p)))
    ensures Copied(s0, s', d, e, data, p + 1)
  {
    hide Pte, Tables, KTables, TableSpan;
    var n := p + 1;
    GrownTrans(s0, s, s', e, NONE);
    SpanNext(0, p);
    assert Tables(s'.mem, e) == KTables(data, 4) + TableSpan(0, n);
    forall q | 0 <= q < VPAGES
      ensures if q < n then CopyOf(s0, s', d, e, q) else Pte(s'.mem, e, q) == KernelPte(data, q)
    {
      assert Pte(s'.mem, e, q) == if q == p then Entry(f, Flags(Pte(s0.mem, d, p))) else Pte(s.mem, e, q);
      if q < p {
        assert CopyOf(s0, s, d, e, q) && PageOk(s, e, q);
        assert Added(s, s', e, NONE, Frame(Pte(s.mem, e, q)));
      }
    }
  }

  lemma ForkTables(data: nat, n: nat)
    requires 0x100 < data < NFRAMES && n <= UPAGES
    ensures |KTables(data, 4) + TableSpan(0, n)| == 64 + (n + 1023) / 1024 && |TableSpan(0, n)| == (n + 1023) / 1024
  {
    hide Span;
    KTablesAll(data, 4);
    assert TableSpan(0, n) == Span(0, (n + 1023) / 1024);
    assert KTables(data, 4) !! TableSpan(0, n);
  }

  lemma CopyCount(s0: Vm, s: Vm, d: nat, e: nat, data: nat, n: nat)
    requires Copied(s0, s, d, e, data, n) && 0x100 < data < NFRAMES && n <= UPAGES
    ensures |s0.free| >= 65 + n + (n + 1023) / 1024
  {
    hide Pte, Tables, TableSpan, Grown;
    ForkTables(data, n);
  }

  lemma CopyShort(s0: Vm, s: Vm, s1: Vm, d: nat, e: nat, data: nat, p: nat, n: nat, f: nat)
    requires Copied(s0, s, d, e, data, p) && p < n <= UPAGES && 0x100 < data < NFRAMES
    requires if f == 0 then s.free == [] else LeftLoose(s, s1, f) && p / 1024 !in Tables(s.mem, e)
    ensures |s0.free| < 65 + n + (n + 1023) / 1024
    ensures f != 0 ==> f in s1.use && s1.use[f].Loose?
  {
    hide Pte, Tables, Grown;
    ForkTables(data, p);
    assert f != 0 ==> p / 1024 !in TableSpan(0, p);
  }

  lemma CopyUndone(s0: Vm, s: Vm, s1: Vm, s2: Vm, first: nat, d: nat, e: nat, data: nat, p: nat, f: nat)
    requires Inv(s0, first) && Inv(s, first) && IsDir(s, e) && Copied(s0, s, d, e, data, p) && Failed(s, s1, f)
             && Undone(s1, s2, f)
    ensures IsFree(s0, e) && IsDir(s2, e) && Grown(s0, s2, e, NONE)
  {
    hide Pte, Tables, KTables;
    assert f != 0 ==> s.free[0] == f;
    forall g | 0 <= g < NFRAMES ensures Added(s0, s2, e, NONE, g) {
      assert Added(s0, s, e, NONE, g);
    }
  }

  /** Fork isolation: parent and child share no user page, and the parent's
      mappings and memory are what they were. */
  lemma ForkIsolation(s0: Vm, s: Vm, first: nat, d: nat, e: nat, data: nat, n: nat, p: nat, q: nat)
    requires Inv(s0, first) && Inv(s, first) && IsDir(s0, d) && IsDir(s, e) && Copied(s0, s, d, e, data, n)
    requires p < n <= UPAGES && q < UPAGES && Present(Pte(s0.mem, d, q))
    ensures Pte(s.mem, d, q) == Pte(s0.mem, d, q)
    ensures var mine, its := Frame(Pte(s.mem, d, q)), Frame(Pte(s.mem, e, p));
            mine < |s.mem| && mine < |s0.mem| && s.mem[mine] == s0.mem[mine] && mine != its
  {
    hide Pte, Tables, KTables;
    OtherSpaces(s0, s, first, e, NONE, d, q);
    PteFacts(s0, first, d, q);
    assert Added(s0, s, e, NONE, Frame(Pte(s0.mem, d, q)));
    assert CopyOf(s0, s, d, e, p) && PageOk(s, e, p);
  }

  /** After a failed mapping f is loose, everything else as before, no page free. */
  ghost predicate LeftLoose(s: Vm, s': Vm, f: nat) {
    && f < |s.mem| == NFRAMES && s.free == [f] && s'.free == [] && f in s.use && s'.use == s.use[f := Loose]
    && |s'.mem| == |s.mem|
    && forall g :: 0 <= g < NFRAMES && g != f ==> s'.mem[g] == s.mem[g]
  }

  /** The page f from the free list, holding page, is mapped at p in d. */
  ghost predicate OnePage(s: Vm, s': Vm, d: nat, p: nat, f: nat, page: Page, perm: nat)
    requires perm < PGSIZE
  {
    && Grown(s, s', d, NONE) && IsFree(s, f) && f < NFRAMES && s'.mem[f] == page
    && (forall q :: 0 <= q < VPAGES ==> Pte(s'.mem, d, q) == if q == p then Entry(f, perm) else Pte(s.mem, d, q))
    && Tables(s'.mem, d) == Tables(s.mem, d) + {p / 1024}
    && |s'.free| + |Tables(s'.mem, d)| + 1 == |s.free| + |Tables(s.mem, d)|
  }

  lemma OneRegion(s0: Vm, s: Vm, s1: Vm, first: nat, d: nat, p: nat, f: nat, page: Page, perm: nat)
    requires Inv(s0, first) && IsDir(s0, d) && p < UPAGES && !Present(Pte(s0.mem, d, p)) && perm < PGSIZE
    requires f != 0 && s0.free == [f] + s.free && f in s0.use && s.mem == s0.mem && s.use == s0.use[f := Loose]
    requires f < |s.mem| && s1 == s.(mem := s.mem[f := page])
    ensures f * PGSIZE % PGSIZE == 0 && RegionOf(d, p * PGSIZE, PGSIZE, f * PGSIZE, perm) == Region(d, p, 1, f, perm)
    ensures RegionOk(s1, Region(d, p, 1, f, perm)) && IsDir(s1, d)
    ensures s.free == [] ==> LeftLoose(s0, s1, f)
    ensures Tables(s1.mem, d) == Tables(s0.mem, d)
  {
    assert s0.free[0] == f;
    SameSpaces(s0, first, f, page, d, p);
    assert Tables(s1.mem, d) == Tables(s0.mem, d);
  }

  lemma OneMapped(s0: Vm, s1: Vm, s': Vm, first: nat, d: nat, p: nat, f: nat, page: Page, perm: nat)
    requires Inv(s0, first) && IsDir(s0, d) && p < UPAGES && perm < PGSIZE && Inv(s1, first) && Inv(s', first)
    requires f in s0.use && s0.free == [f] + s1.free && s1.use == s0.use[f := Loose] && f < |s0.mem|
             && s1.mem == s0.mem[f := page]
    requires Mapped(s1, s', Region(d, p, 1, f, perm), 1) && Tables(s1.mem, d) == Tables(s0.mem, d)
    ensures OnePage(s0, s', d, p, f, page, perm)
  {
    hide Pte, TableSpan, Span, Tables;
    assert s0.free[0] == f;
    forall g | 0 <= g < NFRAMES ensures Added(s0, s', d, NONE, g) {
      assert Added(s1, s', d, Frames(f, 1), g);
    }
    assert Added(s1, s', d, Frames(f, 1), f);
    forall q | 0 <= q < VPAGES ensures Pte(s'.mem, d, q) == if q == p then Entry(f, perm) else Pte(s0.mem, d, q) {
      SameSpaces(s0, first, f, page, d, q);
    }
    assert TableSpan(p, p + 1) == {p / 1024};
  }

  // ---- growing a process ----

  /** A page of zeros that the user may write. */
  predicate ZeroPage(s: Vm, d: nat, p: nat) {
    var pte := Pte(s.mem, d, p);
    Present(pte) && Flags(pte) == 7 && Frame(pte) < |s.mem| && s.mem[Frame(pte)] == Filled(0)
  }

  /** d has new zeroed pages from lo up to hi; everything else is as it was. */
  ghost predicate Allocated(s: Vm, s': Vm, d: nat, lo: nat, hi: nat) {
    && Grown(s, s', d, NONE)
    && (forall p :: 0 <= p < VPAGES ==>
          if lo <= p < hi then ZeroPage(s', d, p) else Pte(s'.mem, d, p) == Pte(s.mem, d, p))
    && AllocCount(s, s', d, lo, hi)
  }

  /** What it cost. */
  ghost predicate AllocCount(s: Vm, s': Vm, d: nat, lo: nat, hi: nat) {
    && Tables(s'.mem, d) == Tables(s.mem, d) + TableSpan(lo, hi)
    && |s'.free| + |Tables(s'.mem, d)| + hi - lo == |s.free| + |Tables(s.mem, d)|
  }

  /** Memory suffices for the pages and for the tables that are missing. */
  ghost predicate Enough(s: Vm, d: nat, lo: nat, hi: nat) {
    |s.free| >= hi - lo + |TableSpan(lo, hi) - Tables(s.mem, d)|
  }

  /** d maps what it did, though it may have tables more. */
  ghost predicate Unwound(s: Vm, s': Vm, d: nat) {
    && Grown(s, s', d, NONE)
    && forall p :: 0 <= p < VPAGES ==> SameEntry(Pte(s.mem, d, p), Pte(s'.mem, d, p))
  }

  predicate SameEntry(w: nat, w': nat) { if Present(w) then w' == w else !Present(w') }

  lemma AllocatedNone(s: Vm, first: nat, d: nat, lo: nat)
    requires Inv(s, first)
    ensures Allocated(s, s, d, lo, lo)
  {
  }

  lemma StillUnmapped(s0: Vm, s: Vm, d: nat, lo: nat, p: nat)
    requires Allocated(s0, s, d, lo, p) && p < VPAGES && !Present(Pte(s0.mem, d, p))
    ensures !Present(Pte(s.mem, d, p))
  {
    assert Pte(s.mem, d, p) == Pte(s0.mem, d, p);
  }

  lemma AllocatedNext(s0: Vm, s: Vm, s': Vm, first: nat, d: nat, lo: nat, p: nat, f: nat)
    requires Inv(s, first) && IsDir(s, d) && Allocated(s0, s, d, lo, p) && lo <= p < UPAGES
    requires OnePage(s, s', d, p, f, Filled(0), 6)
    ensures Allocated(s0, s', d, lo, p + 1)
  {
    hide Pte, Tables, TableSpan;
    var hi := p + 1;
    GrownTrans(s0, s, s', d, NONE);
    SpanNext(lo, p);
    assert Tables(s'.mem, d) == Tables(s0.mem, d) + TableSpan(lo, hi);
    forall q | 0 <= q < VPAGES
      ensures if lo <= q < hi then ZeroPage(s', d, q) else Pte(s'.mem, d, q) == Pte(s0.mem, d, q)
    {
      assert Pte(s'.mem, d, q) == if q == p then Entry(f, 6) else Pte(s.mem, d, q);
      if lo <= q < p {
        assert ZeroPage(s, d, q) && PageOk(s, d, q);
        assert Added(s, s', d, NONE, Frame(Pte(s.mem, d, q)));
      }
    }
  }

  lemma UnionCount(a: set<nat>, b: set<nat>)
    ensures |a + b| == |a| + |b - a|
  {
    assert a + b == a + (b - a);
  }

  lemma EnoughThen(s0: Vm, s: Vm, d: nat, lo: nat, hi: nat)
    requires Allocated(s0, s, d, lo, hi) && lo <= hi
    ensures Enough(s0, d, lo, hi)
  {
    hide Pte, Tables, TableSpan, Grown;
    UnionCount(Tables(s0.mem, d), TableSpan(lo, hi));
  }

  lemma NotEnough(s0: Vm, s: Vm, d: nat, lo: nat, p: nat, hi: nat)
    requires AllocCount(s0, s, d, lo, p) && lo <= p < hi
    requires s.free == [] || (|s.free| == 1 && p / 1024 !in Tables(s.mem, d))
    ensures !Enough(s0, d, lo, hi)
  {
    hide Tables;
    var t0, now, all := Tables(s0.mem, d), TableSpan(lo, p), TableSpan(lo, hi);
    UnionCount(t0, now);
    assert now <= all && p / 1024 in all;
    if s.free == [] {
      SubsetSize(now - t0, all - t0);
    } else {
      SubsetSize(now - t0, all - t0 - {p / 1024});
    }
  }

  lemma AllocFacts(s0: Vm, s: Vm, s1: Vm, d: nat, lo: nat, p: nat, f: nat)
    requires Allocated(s0, s, d, lo, p) && (f != 0 ==> LeftLoose(s, s1, f))
    ensures AllocCount(s0, s, d, lo, p) && (f != 0 ==> |s.free| == 1 && f < NFRAMES && f in s1.use && s1.use[f].Loose?)
  {
  }

  lemma LooseKept(s1: Vm, s2: Vm, d: nat, lo: nat, hi: nat, f: nat)
    requires Emptied(s1, s2, d, lo, hi) && f < NFRAMES && f in s1.use && s1.use[f].Loose?
    ensures f in s2.use && s2.use[f].Loose?
  {
    assert Released(s1, s2, d, lo, hi, f);
  }

  /** The state that the failing call to NewPage leaves. */
  ghost predicate Failed(s: Vm, s1: Vm, f: nat) {
    if f == 0 then s1 == s else LeftLoose(s, s1, f)
  }

  /** And f has been freed after all. */
  ghost predicate Undone(s2: Vm, s3: Vm, f: nat) {
    if f == 0 then s3 == s2
    else (
      && f in s2.use && s2.use[f].Loose? && s3.use == s2.use[f := Free] && |s3.mem| == |s2.mem|
      && forall g :: 0 <= g < |s2.mem| && g != f ==> s3.mem[g] == s2.mem[g])
  }

  lemma AllocUndone(s0: Vm, s: Vm, s1: Vm, s2: Vm, s3: Vm, first: nat, d: nat, lo: nat, p: nat, hi: nat, f: nat)
    requires Inv(s0, first) && Inv(s, first) && Inv(s2, first) && IsDir(s, d) && IsDir(s2, d)
    requires Allocated(s0, s, d, lo, p) && lo <= p < hi <= UPAGES
             && (forall q :: lo <= q < hi ==> !Present(Pte(s0.mem, d, q)))
    requires Failed(s, s1, f) && Emptied(s1, s2, d, lo, hi) && Undone(s2, s3, f)
    ensures Unwound(s0, s3, d)
  {
    hide Pte, AllocCount;
    forall g | 0 <= g < NFRAMES ensures Added(s0, s3, d, NONE, g) {
      assert Added(s0, s, d, NONE, g) && Released(s1, s2, d, lo, hi, g);
      assert g in s0.use ==> InUse(s0, g);
      assert f != 0 ==> s.free[0] == f;
    }
    forall q | 0 <= q < VPAGES ensures SameEntry(Pte(s0.mem, d, q), Pte(s3.mem, d, q)) {
      UndonePte(s, s1, s2, s3, first, d, f, q);
    }
  }

  lemma UndonePte(s: Vm, s1: Vm, s2: Vm, s3: Vm, first: nat, d: nat, f: nat, q: nat)
    requires Inv(s, first) && Inv(s2, first) && IsDir(s, d) && IsDir(s2, d) && q < VPAGES
    requires Failed(s, s1, f) && Undone(s2, s3, f) && |s3.mem| == NFRAMES
    ensures Pte(s1.mem, d, q) == Pte(s.mem, d, q) && Pte(s3.mem, d, q) == Pte(s2.mem, d, q)
  {
    if f != 0 {
      assert s.free[0] == f;
      assert s1.mem == s.mem[f := s1.mem[f]] && s3.mem == s2.mem[f := s3.mem[f]];
      SameSpaces(s, first, f, s1.mem[f], d, q);
      SameSpaces(s2, first, f, s3.mem[f], d, q);
    }
  }

  // ---- the kernel's part of every address space ----

  datatype Kmap = Kmap(virt: nat, start: nat, end: nat, perm: nat)

  /** kmap[] for a data segment that starts at frame data. */
  function KernelMap(data: nat): (r: seq<Kmap>)
    ensures |r| == 4
  {
    [Kmap(KERNBASE, 0, 0x10_0000, 2),
     Kmap(KERNBASE + 0x10_0000, 0x10_0000, data * PGSIZE, 0),
     Kmap(KERNBASE + data * PGSIZE, data * PGSIZE, 0xE00_0000, 2),
     Kmap(0xFE00_0000, 0xFE00_0000, 0, 2)]
  }

  /** phys_end - phys_start in 32-bit arithmetic: the last range ends at 0. */
  function Size(k: Kmap): nat {
    (k.end + WRAP - k.start % WRAP) % WRAP
  }

  /** What every directory maps: the kernel's direct map of physical memory, text
      and constants read-only, and the devices; nothing in the user half. */
  function KernelPte(data: nat, p: nat): nat {
    if UPAGES <= p < UPAGES + NFRAMES then
      (p - UPAGES) * PGSIZE + (if 0x100 <= p - UPAGES < data then 1 else 3)
    else if 0xFE000 <= p < VPAGES then p * PGSIZE + 3
    else 0
  }

  /** The first page past the first k ranges of the direct map. */
  function Upto(data: nat, k: nat): nat {
    UPAGES + if k == 0 then 0 else if k == 1 then 0x100 else if k == 2 then data else NFRAMES
  }

  predicate Covered(data: nat, k: nat, p: nat) {
    UPAGES <= p < Upto(data, k) || (k == 4 && 0xFE000 <= p < VPAGES)
  }

  /** Whether the first k ranges need entry i of the directory. */
  predicate KTable(data: nat, k: nat, i: nat) {
    (UPAGES < Upto(data, k) && UPAGES / 1024 <= i <= (Upto(data, k) - 1) / 1024) || (k == 4 && 0x3F8 <= i < 0x400)
  }

  ghost function KTables(data: nat, k: nat): set<nat> {
    set i: nat | i < NWORDS && KTable(data, k, i)
  }

  /** The first k ranges of kmap are mapped in the new directory d. */
  ghost predicate SetUp(s0: Vm, s: Vm, d: nat, data: nat, k: nat) {
    && IsDir(s, d) && IsFree(s0, d) && Grown(s0, s, d, NONE)
    && (forall p :: 0 <= p < VPAGES ==> Pte(s.mem, d, p) == if Covered(data, k, p) then KernelPte(data, p) else 0)
    && Tables(s.mem, d) == KTables(data, k)
    && |s.free| + |Tables(s.mem, d)| + 1 == |s0.free|
  }

  /** Nothing in use has changed. */
  ghost predicate RolledBack(s: Vm, s': Vm) {
    && s'.use == s.use && |s'.mem| == |s.mem| == NFRAMES
    && forall f :: 0 <= f < NFRAMES && !IsFree(s, f) ==> s'.mem[f] == s.mem[f]
  }

  lemma RolledRefl(s: Vm, first: nat)
    requires Inv(s, first)
    ensures RolledBack(s, s)
  {
  }

  lemma SetUpNone(s0: Vm, s1: Vm, first: nat, d: nat, data: nat)
    requires Inv(s0, first) && Inv(s1, first) && s0.free == [d] + s1.free && d in s0.use
    requires s1.use == s0.use[d := Loose] && s1.mem == s0.mem[d := Filled(0)]
    ensures Inv(s1.(use := s1.use[d := Dir]), first) && SetUp(s0, s1.(use := s1.use[d := Dir]), d, data, 0)
  {
    DirInv(s1, first, d);
    assert s0.free[0] == d;
    var s := s1.(use := s1.use[d := Dir]);
    assert Tables(s.mem, d) == {} == KTables(data, 0);
    forall f | 0 <= f < NFRAMES ensures Added(s0, s, d, NONE, f) {
    }
  }

  function KRegion(d: nat, data: nat, k: nat): Region
    requires k < 4 && 0x100 < data < NFRAMES
  {
    if k == 3 then Region(d, 0xFE000, 0x2000, 0xFE000, 2)
    else Region(d, Upto(data, k), Upto(data, k + 1) - Upto(data, k), Upto(data, k) - UPAGES, if k == 1 then 0 else 2)
  }

  lemma KRegionOf(d: nat, data: nat, k: nat)
    requires k < 4 && 0x100 < data < NFRAMES
    ensures var e := KernelMap(data)[k];
            && Size(e) > 0 && e.virt + Size(e) <= WRAP && e.start % PGSIZE == 0 && e.perm < PGSIZE
            && RegionOf(d, e.virt, Size(e), e.start, e.perm) == KRegion(d, data, k)
  {
  }

  lemma SetUpRegion(s0: Vm, s: Vm, first: nat, d: nat, data: nat, k: nat)
    requires SetUp(s0, s, d, data, k) && k < 4 && 0x100 < data < NFRAMES
    ensures RegionOk(s, KRegion(d, data, k)) && IsDir(s, d)
  {
    hide Pte, KTables;
  }

  lemma SetUpNext(s0: Vm, s: Vm, s': Vm, d: nat, data: nat, k: nat)
    requires k < 4 && 0x100 < data < NFRAMES && SetUp(s0, s, d, data, k) && IsDir(s', d)
    requires Mapped(s, s', KRegion(d, data, k), KRegion(d, data, k).n)
    ensures SetUp(s0, s', d, data, k + 1)
  {
    hide Pte, KTables, TableSpan, Span;
    var r, k' := KRegion(d, data, k), k + 1;
    GrownTrans(s0, s, s', d, NONE);
    KTablesNext(d, data, k);
    forall p | 0 <= p < VPAGES ensures Pte(s'.mem, d, p) == if Covered(data, k', p) then KernelPte(data, p) else 0 {
      KPage(d, data, k, p);
    }
  }

  lemma KPage(d: nat, data: nat, k: nat, p: nat)
    requires k < 4 && 0x100 < data < NFRAMES && p < VPAGES
    ensures var r := KRegion(d, data, k);
            if r.p0 <= p < r.p0 + r.n then
              !Covered(data, k, p) && Covered(data, k + 1, p) && KernelPte(data, p) == Entry(r.f0 + p - r.p0, r.perm)
            else Covered(data, k, p) == Covered(data, k + 1, p)
  {
  }

  lemma KTablesNext(d: nat, data: nat, k: nat)
    requires k < 4 && 0x100 < data < NFRAMES
    ensures var r := KRegion(d, data, k); KTables(data, k) + TableSpan(r.p0, r.p0 + r.n) == KTables(data, k + 1)
  {
    hide TableSpan, Span;
  }

  lemma KTablesAll(data: nat, k: nat)
    requires k <= 4 && 0x100 < data < NFRAMES
    ensures |KTables(data, 4)| == 64 && KTables(data, k) <= KTables(data, 4)
  {
    hide Span;
    assert KTables(data, 4) == Span(512, 56) + Span(0x3F8, 8);
  }

  lemma SetUpFails(s0: Vm, s: Vm, s': Vm, d: nat, data: nat, k: nat, n: nat)
    requires k < 4 && 0x100 < data < NFRAMES && SetUp(s0, s, d, data, k)
    requires var r := KRegion(d, data, k);
             n < r.n && Mapped(s, s', r, n) && s'.free == [] && (r.p0 + n) / 1024 !in Tables(s'.mem, d)
    ensures |s0.free| < 65 && IsFree(s0, d) && Grown(s0, s', d, NONE)
  {
    hide Pte, KTables, Tables, MappedTables, MappedPages, MappedFrames;
    GrownTrans(s0, s, s', d, NONE);
    TooFewTables(s, s', d, data, k, n);
  }

  lemma TooFewTables(s: Vm, s': Vm, d: nat, data: nat, k: nat, n: nat)
    requires k < 4 && 0x100 < data < NFRAMES && Tables(s.mem, d) == KTables(data, k)
    requires var r := KRegion(d, data, k);
             n < r.n && MappedTables(s, s', r, n) && s'.free == [] && (r.p0 + n) / 1024 !in Tables(s'.mem, d)
    ensures |s.free| + |Tables(s.mem, d)| < 64
  {
    hide TableSpan, Span, Tables, KTables;
    var r := KRegion(d, data, k);
    KTablesNext(d, data, k);
    KTablesAll(data, k + 1);
    var i := (r.p0 + n) / 1024;
    assert i in TableSpan(r.p0, r.p0 + r.n);
    assert TableSpan(r.p0, r.p0 + n) <= TableSpan(r.p0, r.p0 + r.n);
    SubsetSize(Tables(s'.mem, d), KTables(data, 4) - {i});
  }

  lemma SetUpDone(s0: Vm, s: Vm, d: nat, data: nat)
    requires 0x100 < data < NFRAMES && SetUp(s0, s, d, data, 4)
    ensures |s0.free| == |s.free| + 65
  {
    KTablesAll(data, 4);
  }

  /** Adding to a new directory and giving it up again changes nothing. */
  lemma GivenUp(s0: Vm, s1: Vm, s2: Vm, first: nat, d: nat)
    requires Inv(s0, first) && Inv(s2, first) && IsFree(s0, d) && Grown(s0, s1, d, NONE) && Freed(s1, s2, d)
    ensures RolledBack(s0, s2)
  {
    forall f | 0 <= f < NFRAMES
      ensures f in s0.use <==> f in s2.use
      ensures f in s0.use ==> s2.use[f] == s0.use[f]
      ensures !IsFree(s0, f) ==> s2.mem[f] == s0.mem[f]
    {
      assert Added(s0, s1, d, NONE, f) && GivenBack(s1, s2, d, f);
      assert f in s0.use ==> InUse(s0, f);
    }
  }

  /** One frame once directory d has been given back. */
  ghost predicate GivenBack(s: Vm, s': Vm, d: nat, f: nat)
    requires f < |s.mem| && f < |s'.mem|
  {
    && (f in s.use <==> f in s'.use)
    && (f in s.use ==> s'.use[f] == if Mine(s, d, f) then Free else s.use[f])
    && (!IsFree(s', f) ==> s'.mem[f] == s.mem[f])
  }

  ghost predicate Freed(s: Vm, s': Vm, d: nat) {
    |s.mem| == |s'.mem| == NFRAMES && forall f :: 0 <= f < NFRAMES ==> GivenBack(s, s', d, f)
  }

  /** One frame while freevm gives back d's tables, i of them done. */
  ghost predicate GoneBelow(s1: Vm, s: Vm, d: nat, i: nat, f: nat)
    requires f < |s.mem| && f < |s1.mem|
  {
    && (f in s.use <==> f in s1.use)
    && (f in s1.use ==>
          s.use[f] == if IsTable(s1, d, f)
          && s1.use[f].i < i then Free else if Mine(s1, d, f) then Loose else s1.use[f])
    && (!IsFree(s, f) ==> s.mem[f] == s1.mem[f])
  }

  ghost predicate TablesGone(s1: Vm, s: Vm, d: nat, i: nat) {
    |s1.mem| == |s.mem| == NFRAMES && forall f :: 0 <= f < NFRAMES ==> GoneBelow(s1, s, d, i, f)
  }

  lemma DropReady(s0: Vm, s1: Vm, first: nat, d: nat)
    requires Inv(s1, first) && IsDir(s1, d) && Emptied(s0, s1, d, 0, UPAGES)
    ensures Inv(s1.(use := Dropped(s1, d)), first) && TablesGone(s1, s1.(use := Dropped(s1, d)), d, 0)
  {
    hide Pte;
    DropInv(s1, first, d);
  }

  lemma NextTable(s1: Vm, s: Vm, first: nat, d: nat, i: nat)
    requires Inv(s1, first) && IsDir(s1, d) && TablesGone(s1, s, d, i) && i < NWORDS
    ensures var pde := Word(s.mem, d, i);
            pde == Word(s1.mem, d, i) && (Present(pde) ==> Frame(pde) in s.use && s.use[Frame(pde)].Loose?)
  {
    assert TableOk(s1, d, i) && GoneBelow(s1, s, d, i, d);
    var pde := Word(s1.mem, d, i);
    assert Present(pde) ==> GoneBelow(s1, s, d, i, Frame(pde));
  }

  lemma TableGone(s1: Vm, s: Vm, s': Vm, first: nat, d: nat, i: nat)
    requires Inv(s1, first) && IsDir(s1, d) && TablesGone(s1, s, d, i) && i < NWORDS && |s'.mem| == |s.mem|
    requires var pde := Word(s1.mem, d, i);
             if Present(pde) then s'.use ==
               s.use[Frame(pde) := Free] && forall g :: 0 <= g < |s.mem| && g != Frame(pde) ==> s'.mem[g] == s.mem[g]
             else s'.use == s.use && s'.mem == s.mem
    ensures TablesGone(s1, s', d, i + 1)
  {
    var i' := i + 1;
    forall f | 0 <= f < NFRAMES ensures GoneBelow(s1, s', d, i', f) {
      assert GoneBelow(s1, s, d, i, f) && TableOk(s1, d, i);
      assert f in s1.use ==> InUse(s1, f);
    }
  }

  lemma LastLoose(s1: Vm, s: Vm, first: nat, d: nat)
    requires Inv(s1, first) && IsDir(s1, d) && TablesGone(s1, s, d, NWORDS)
    ensures d in s.use && s.use[d].Loose?
  {
    assert GoneBelow(s1, s, d, NWORDS, d);
  }

  lemma AllGone(s0: Vm, s1: Vm, s: Vm, s': Vm, first: nat, d: nat)
    requires Inv(s0, first) && Inv(s1, first) && IsDir(s0, d) && Emptied(s0, s1, d, 0, UPAGES)
             && TablesGone(s1, s, d, NWORDS)
    requires s'.use == s.use[d := Free] && |s'.mem| == |s.mem|
             && forall g :: 0 <= g < |s.mem| && g != d ==> s'.mem[g] == s.mem[g]
    ensures Freed(s0, s', d)
  {
    hide Pte;
    forall f | 0 <= f < NFRAMES ensures GivenBack(s0, s', d, f) {
      assert Released(s0, s1, d, 0, UPAGES, f) && GoneBelow(s1, s, d, NWORDS, f);
      assert f in s0.use ==> InUse(s0, f);
      assert f in s1.use ==> InUse(s1, f);
    }
  }

  /** What a walk over the pages from lo up to hi, one page after the other, has
      put on the free list. */
  ghost function PageWalk(mem: seq<Page>, d: nat, lo: nat, hi: nat): seq<nat> {
    if lo >= hi then []
    else (if Present(Pte(mem, d, hi - 1)) then [Frame(Pte(mem, d, hi - 1))] else []) + PageWalk(mem, d, lo, hi - 1)
  }

  /** One frame when d's pages from lo up to hi are freed. */
  ghost predicate Released(s: Vm, s': Vm, d: nat, lo: nat, hi: nat, f: nat)
    requires f < |s.mem| && f < |s'.mem|
  {
    && (f in s.use <==> f in s'.use)
    && (f in s.use ==>
          s'.use[f] == if s.use[f].User? && s.use[f].d == d && lo <= s.use[f].p < hi then Free else s.use[f])
    && (!IsFree(s', f) && !IsTable(s, d, f) ==> s'.mem[f] == s.mem[f])
  }

  ghost predicate Emptied(s: Vm, s': Vm, d: nat, lo: nat, hi: nat) {
    && s'.free == PageWalk(s.mem, d, lo, hi) + s.free
    && |s.mem| == |s'.mem| == NFRAMES
    && (forall f :: 0 <= f < NFRAMES ==> Released(s, s', d, lo, hi, f))
    && (forall p :: 0 <= p < VPAGES ==>
          Pte(s'.mem, d, p) == if lo <= p < hi && Present(Pte(s.mem, d, p)) then 0 else Pte(s.mem, d, p))
  }

  lemma EmptiedNone(s: Vm, first: nat, d: nat, lo: nat)
    requires Inv(s, first)
    ensures Emptied(s, s, d, lo, lo)
  {
  }

  lemma {:induction false} WalkSkip(mem: seq<Page>, d: nat, lo: nat, p: nat, p': nat)
    requires lo <= p <= p' && forall q :: p <= q < p' ==> !Present(Pte(mem, d, q))
    ensures PageWalk(mem, d, lo, p') == PageWalk(mem, d, lo, p)
  {
    hide Pte;
    if p < p' { WalkSkip(mem, d, lo, p, p' - 1); }
  }

  /** Pages that are not mapped can be passed over. */
  lemma EmptiedSkip(s0: Vm, s: Vm, first: nat, d: nat, lo: nat, p: nat, p': nat)
    requires Inv(s0, first) && Emptied(s0, s, d, lo, p) && lo <= p <= p' <= UPAGES
    requires forall q :: p <= q < p' ==> !Present(Pte(s.mem, d, q))
    ensures Emptied(s0, s, d, lo, p')
  {
    hide Pte;
    forall q | p <= q < p' ensures !Present(Pte(s0.mem, d, q)) {
      assert Pte(s.mem, d, q) == Pte(s0.mem, d, q);
    }
    WalkSkip(s0.mem, d, lo, p, p');
    forall f | 0 <= f < NFRAMES ensures Released(s0, s, d, lo, p', f) {
      assert Released(s0, s, d, lo, p, f);
      assert f in s0.use ==> InUse(s0, f);
    }
  }

  /** So can everything up to the next table, when there is no table. */
  lemma TableSkip(s0: Vm, s: Vm, first: nat, d: nat, lo: nat, p: nat, p': nat)
    requires Inv(s0, first) && Emptied(s0, s, d, lo, p) && lo <= p <= p' <= UPAGES && p' <= (p / 1024 + 1) * 1024
    requires !Present(Word(s.mem, d, p / 1024))
    ensures Emptied(s0, s, d, lo, p')
  {
    hide Emptied;
    forall q | p <= q < p' ensures !Present(Pte(s.mem, d, q)) {
      assert q / 1024 == p / 1024;
    }
    EmptiedSkip(s0, s, first, d, lo, p, p');
  }

  lemma PageSkip(s0: Vm, s: Vm, first: nat, d: nat, lo: nat, p: nat)
    requires Inv(s0, first) && Emptied(s0, s, d, lo, p) && lo <= p < UPAGES && !Present(Pte(s.mem, d, p))
    ensures Emptied(s0, s, d, lo, p + 1)
  {
    hide Emptied;
    EmptiedSkip(s0, s, first, d, lo, p, p + 1);
  }

  /** The user page p of d is freed and its entry cleared. */
  function Cleared(s: Vm, d: nat, p: nat, page: Page): Vm {
    var t, f := Frame(Word(s.mem, d, p / 1024)), Frame(Pte(s.mem, d, p));
    Vm(Put(if f < |s.mem| then s.mem[f := page] else s.mem, t, p % 1024, 0), [f] + s.free, s.use[f := Free])
  }

  lemma PteFacts(s: Vm, first: nat, d: nat, p: nat)
    requires Inv(s, first) && IsDir(s, d) && p < UPAGES && Present(Pte(s.mem, d, p))
    ensures var t, f := Frame(Word(s.mem, d, p / 1024)), Frame(Pte(s.mem, d, p));
            && t < NFRAMES == |s.mem| && |s.mem[t].words| == NWORDS && first <= f < NFRAMES && f != 0
            && t != f && d != t && d != f && f == Frame(Word(s.mem, t, p % 1024))
            && t in s.use && s.use[t] == Table(d, p / 1024) && f in s.use && s.use[f] == User(d, p)
  {
    assert TableOk(s, d, p / 1024) && PageOk(s, d, p);
  }

  lemma UserFacts(s: Vm, first: nat, d: nat, p: nat, head: nat)
    requires Inv(s, first) && IsDir(s, d) && p < UPAGES && Present(Pte(s.mem, d, p)) && Linked(s.mem, head, s.free)
    ensures var t, f := Frame(Word(s.mem, d, p / 1024)), Frame(Pte(s.mem, d, p));
            t !in s.free && f !in s.free && FreeList(s.mem, head, s.free, first)
  {
    hide Pte;
    PteFacts(s, first, d, p);
  }

  lemma PteWord(mem: seq<Page>, d: nat, p: nat)
    requires Present(Word(mem, d, p / 1024))
    ensures Pte(mem, d, p) == Word(mem, Frame(Word(mem, d, p / 1024)), p % 1024)
  {
  }

  lemma StillLinked(mem: seq<Page>, head: nat, free: seq<nat>, first: nat, t: nat, i: nat)
    requires FreeList(mem, head, free, first) && t < |mem| && i < |mem[t].words| && t !in free
    ensures Linked(Put(mem, t, i, 0), head, free)
  {
    LinkedKept(mem, Put(mem, t, i, 0), head, free);
  }

  lemma EmptiedOne(s0: Vm, s: Vm, first: nat, d: nat, lo: nat, p: nat, page: Page)
    requires Inv(s0, first) && Inv(s, first) && IsDir(s, d) && Emptied(s0, s, d, lo, p) && lo <= p < UPAGES
    requires Present(Pte(s.mem, d, p)) && |page.words| == NWORDS
    ensures var t, f := Frame(Word(s.mem, d, p / 1024)), Frame(Pte(s.mem, d, p));
            && t < NFRAMES == |s.mem| && |s.mem[t].words| == NWORDS && f < NFRAMES && t != d && f != d
            && Emptied(s0, Cleared(s, d, p, page), d, lo, p + 1)
  {
    hide Pte;
    PteFacts(s, first, d, p);
    var s', hi := Cleared(s, d, p, page), p + 1;
    assert Pte(s.mem, d, p) == Pte(s0.mem, d, p);
    forall p' | 0 <= p' < VPAGES
      ensures Pte(s'.mem, d, p') == if lo <= p' < hi && Present(Pte(s0.mem, d, p')) then 0 else Pte(s0.mem, d, p')
    {
      Unmapped(s, first, d, p, page, d, p');
    }
    forall f | 0 <= f < NFRAMES ensures Released(s0, s', d, lo, hi, f) {
      assert Released(s0, s, d, lo, p, f);
      assert f in s.use ==> InUse(s, f);
    }
  }

  predicate InSpan(lo: nat, hi: nat, i: nat) { lo < hi && lo / 1024 <= i <= (hi - 1) / 1024 }

  /** The directory entries that the pages from lo up to hi fall under. */
  ghost function TableSpan(lo: nat, hi: nat): (r: set<nat>)
    ensures forall i :: i in r <==> lo < hi && lo / 1024 <= i <= (hi - 1) / 1024
  {
    set i: nat | i <= hi && InSpan(lo, hi, i)
  }

  lemma SpanNext(lo: nat, hi: nat)
    requires lo <= hi
    ensures TableSpan(lo, hi) + {hi / 1024} == TableSpan(lo, hi + 1)
  {
    hide TableSpan;
    assert lo < hi ==> hi / 1024 == (hi - 1) / 1024 || hi / 1024 == (hi - 1) / 1024 + 1;
  }

  /** n pages from p0 on, to be mapped to the frames from f0 on. */
  datatype Region = Region(d: nat, p0: nat, n: nat, f0: nat, perm: nat)

  /** The pages that the size bytes from va on lie in, no more and no fewer. */
  function RegionOf(d: nat, va: nat, size: nat, pa: nat, perm: nat): (r: Region)
    requires size > 0
    ensures r.d == d && r.perm == perm && r.f0 == pa / PGSIZE
    ensures r.p0 * PGSIZE <= va < (r.p0 + 1) * PGSIZE
    ensures r.n > 0 && (r.p0 + r.n - 1) * PGSIZE < va + size <= (r.p0 + r.n) * PGSIZE
  {
    Region(d, va / PGSIZE, (va + size - 1) / PGSIZE - va / PGSIZE + 1, pa / PGSIZE, perm)
  }

  /** No page of the region is mapped yet, and user pages are given frames that
      no other use has. */
  ghost predicate RegionOk(s: Vm, r: Region) {
    && IsDir(s, r.d) && 0 < r.n && r.p0 + r.n <= VPAGES && r.perm < PGSIZE
    && (forall p :: r.p0 <= p < r.p0 + r.n ==> !Present(Pte(s.mem, r.d, p)))
    && (r.p0 < UPAGES ==> r.p0 + r.n <= UPAGES && forall f :: r.f0 <= f < r.f0 + r.n ==> f in s.use && s.use[f].Loose?)
  }

  function Taken(r: Region): Frames {
    if r.p0 < UPAGES then Frames(r.f0, r.n) else NONE
  }

  /** The first k pages of the region are mapped, the rest of d's are as before. */
  ghost predicate MappedPages(s: Vm, s': Vm, r: Region, k: nat)
    requires r.perm < PGSIZE
  {
    forall p :: 0 <= p < VPAGES ==>
      Pte(s'.mem, r.d, p) == if r.p0 <= p < r.p0 + k then Entry(r.f0 + p - r.p0, r.perm) else Pte(s.mem, r.d, p)
  }

  /** Their frames belong to them. */
  ghost predicate MappedFrames(s': Vm, r: Region, k: nat) {
    forall f :: 0 <= f < NFRAMES && In(Taken(r), f) ==>
      f in s'.use && s'.use[f] == if f < r.f0 + k then User(r.d, r.p0 + f - r.f0) else Loose
  }

  /** And the tables they needed came from the free list. */
  ghost predicate MappedTables(s: Vm, s': Vm, r: Region, k: nat) {
    && Tables(s'.mem, r.d) == Tables(s.mem, r.d) + TableSpan(r.p0, r.p0 + k)
    && |s'.free| + |Tables(s'.mem, r.d)| == |s.free| + |Tables(s.mem, r.d)|
  }

  ghost predicate Mapped(s: Vm, s': Vm, r: Region, k: nat)
    requires r.perm < PGSIZE
  {
    && Grown(s, s', r.d, Taken(r)) && MappedPages(s, s', r, k)
    && MappedFrames(s', r, k) && MappedTables(s, s', r, k)
  }

  lemma RegionFacts(s: Vm, first: nat, r: Region)
    requires Inv(s, first) && RegionOk(s, r)
    ensures Mapped(s, s, r, 0) && IsDir(s, r.d) && r.p0 + r.n <= VPAGES
  {
  }

  lemma NoTable(s: Vm, d: nat, p: nat)
    requires !Present(Word(s.mem, d, p / 1024))
    ensures p / 1024 !in Tables(s.mem, d)
  {
  }

  lemma MapNext(s0: Vm, s: Vm, s1: Vm, first: nat, r: Region, k: nat)
    requires r.perm < PGSIZE && RegionOk(s0, r) && Inv(s0, first) && Inv(s1, first) && IsDir(s1, r.d) && k < r.n
    requires Mapped(s0, s, r, k) && Walked(s, s1, r.d)
    requires var i := (r.p0 + k) / 1024;
             Present(Word(s1.mem, r.d, i)) && Tables(s1.mem, r.d) == Tables(s.mem, r.d) + {i}
    requires |s1.free| + |Tables(s1.mem, r.d)| == |s.free| + |Tables(s.mem, r.d)|
    ensures var t := Frame(Word(s1.mem, r.d, (r.p0 + k) / 1024));
            && t < NFRAMES == |s1.mem| && |s1.mem[t].words| == NWORDS && t !in s1.free
            && !Present(Word(s1.mem, t, (r.p0 + k) % 1024))
            && Inv(Mapping(s1, r, k, t), first) && IsDir(Mapping(s1, r, k, t), r.d)
            && Mapped(s0, Mapping(s1, r, k, t), r, k + 1)
  {
    hide MappedPages, MappedTables, MappedFrames, Grown, Tables, Inv, Pte, SameMap, Mapping;
    FrameLoose(s0, s, s1, first, r, k);
    Unmapped0(s0, s, s1, r, k);
    var t := MappingInv(s1, first, r, k);
    MapPages(s0, s, s1, first, r, k);
    MapGrown(s0, s, s1, r, k, t);
    MappingTables(s1, r, k, t);
    MapTables(s0, s, s1, Mapping(s1, r, k, t), r, k);
  }

  /** The new entry keeps the invariant. */
  lemma MappingInv(s1: Vm, first: nat, r: Region, k: nat) returns (t: nat)
    requires r.perm < PGSIZE && Inv(s1, first) && IsDir(s1, r.d) && r.p0 + k < VPAGES
    requires Present(Word(s1.mem, r.d, (r.p0 + k) / 1024)) && !Present(Pte(s1.mem, r.d, r.p0 + k))
    requires r.p0 + k < UPAGES ==> r.f0 + k in s1.use && s1.use[r.f0 + k].Loose?
    ensures t == Frame(Word(s1.mem, r.d, (r.p0 + k) / 1024))
    ensures t in s1.use && s1.use[t] == Table(r.d, (r.p0 + k) / 1024)
    ensures t < NFRAMES == |s1.mem| && |s1.mem[t].words| == NWORDS && t !in s1.free && t != r.d
    ensures Inv(Mapping(s1, r, k, t), first) && IsDir(Mapping(s1, r, k, t), r.d)
  {
    hide Inv, Pte;
    t := Frame(Word(s1.mem, r.d, (r.p0 + k) / 1024));
    MapInv(s1, first, r.d, r.p0 + k, Entry(r.f0 + k, r.perm));
    InvFacts(s1, first, t);
  }

  lemma MappingTables(s1: Vm, r: Region, k: nat, t: nat)
    requires r.perm < PGSIZE && t < |s1.mem| && |s1.mem[t].words| == NWORDS && t != r.d
    ensures Tables(Mapping(s1, r, k, t).mem, r.d) == Tables(s1.mem, r.d) && Mapping(s1, r, k, t).free == s1.free
  {
    hide Tables;
    SameTables(s1, t, (r.p0 + k) % 1024, Entry(r.f0 + k, r.perm), r.d);
  }

  lemma Unmapped0(s0: Vm, s: Vm, s1: Vm, r: Region, k: nat)
    requires r.perm < PGSIZE && RegionOk(s0, r) && k < r.n && MappedPages(s0, s, r, k) && SameMap(s, s1, r.d)
    ensures !Present(Pte(s1.mem, r.d, r.p0 + k))
    ensures var pde := Word(s1.mem, r.d, (r.p0 + k) / 1024);
            Present(pde) ==> !Present(Word(s1.mem, Frame(pde), (r.p0 + k) % 1024))
  {
    assert Pte(s1.mem, r.d, r.p0 + k) == Pte(s.mem, r.d, r.p0 + k);
  }

  lemma MapPages(s0: Vm, s: Vm, s1: Vm, first: nat, r: Region, k: nat)
    requires r.perm < PGSIZE && Inv(s1, first) && IsDir(s1, r.d) && k < r.n && r.p0 + r.n <= VPAGES
    requires MappedPages(s0, s, r, k) && SameMap(s, s1, r.d) && Present(Word(s1.mem, r.d, (r.p0 + k) / 1024))
    ensures var t := Frame(Word(s1.mem, r.d, (r.p0 + k) / 1024));
            && t < |s1.mem| && |s1.mem[t].words| == NWORDS
            && MappedPages(s0, Mapping(s1, r, k, t), r, k + 1)
  {
    hide Pte;
    var p, f, d := r.p0 + k, r.f0 + k, r.d;
    assert TableOk(s1, d, p / 1024);
    var t := Frame(Word(s1.mem, d, p / 1024));
    var s2 := Mapping(s1, r, k, t);
    forall p' | 0 <= p' < VPAGES
      ensures Pte(s2.mem, d, p') ==
                if r.p0 <= p' < r.p0 + k + 1 then Entry(r.f0 + p' - r.p0, r.perm) else Pte(s0.mem, d, p')
    {
      OneEntry(s1, first, d, p, Entry(f, r.perm), d, p');
    }
  }

  /** The page after the first k is mapped through the table t. */
  function Mapping(s: Vm, r: Region, k: nat, t: nat): Vm
    requires r.perm < PGSIZE
  {
    var p, f := r.p0 + k, r.f0 + k;
    s.(mem := Put(s.mem, t, p % 1024, Entry(f, r.perm)), use := if p < UPAGES then s.use[f := User(r.d, p)] else s.use)
  }

  lemma InvFacts(s: Vm, first: nat, t: nat)
    requires Inv(s, first) && t in s.use && !s.use[t].Free?
    ensures t < NFRAMES == |s.mem| && |s.mem[t].words| == NWORDS && t !in s.free
  {
  }

  lemma FrameLoose(s0: Vm, s: Vm, s1: Vm, first: nat, r: Region, k: nat)
    requires r.perm < PGSIZE && RegionOk(s0, r) && k < r.n && Inv(s0, first)
    requires Mapped(s0, s, r, k) && Walked(s, s1, r.d)
    ensures r.p0 + k < UPAGES ==> r.f0 + k in s1.use && s1.use[r.f0 + k].Loose?
  {
    hide MappedPages, MappedTables;
    if r.p0 + k < UPAGES {
      assert r.f0 + k in s0.use;
      assert In(Taken(r), r.f0 + k);
      assert Added(s, s1, r.d, NONE, r.f0 + k);
    }
  }

  lemma SameTables(s: Vm, t: nat, i: nat, w: nat, d: nat)
    requires t < |s.mem| && i < |s.mem[t].words| && t != d
    ensures Tables(Put(s.mem, t, i, w), d) == Tables(s.mem, d)
  {
    assert forall i' :: Word(Put(s.mem, t, i, w), d, i') == Word(s.mem, d, i');
  }

  lemma MapTables(s0: Vm, s: Vm, s1: Vm, s2: Vm, r: Region, k: nat)
    requires MappedTables(s0, s, r, k) && s2.free == s1.free
    requires Tables(s2.mem, r.d) == Tables(s1.mem, r.d) == Tables(s.mem, r.d) + {(r.p0 + k) / 1024}
    requires |s1.free| + |Tables(s1.mem, r.d)| == |s.free| + |Tables(s.mem, r.d)|
    ensures MappedTables(s0, s2, r, k + 1)
  {
    hide TableSpan, Tables;
    SpanNext(r.p0, r.p0 + k);
  }

  lemma MapGrown(s0: Vm, s: Vm, s1: Vm, r: Region, k: nat, t: nat)
    requires r.perm < PGSIZE && k < r.n && (r.p0 < UPAGES ==> r.p0 + r.n <= UPAGES)
    requires Grown(s0, s, r.d, Taken(r)) && MappedFrames(s, r, k) && Grown(s, s1, r.d, NONE)
    requires forall f :: 0 <= f < NFRAMES && In(Taken(r), f) ==> f in s0.use && s0.use[f].Loose?
    requires t in s1.use && s1.use[t].Table? && s1.use[t].d == r.d && t < |s1.mem| && |s1.mem[t].words| == NWORDS
    ensures Grown(s0, Mapping(s1, r, k, t), r.d, Taken(r)) && MappedFrames(Mapping(s1, r, k, t), r, k + 1)
  {
    var s2 := Mapping(s1, r, k, t);
    forall f | 0 <= f < NFRAMES ensures Added(s0, s2, r.d, Taken(r), f) {
      assert Added(s0, s, r.d, Taken(r), f) && Added(s, s1, r.d, NONE, f);
    }
    forall f | 0 <= f < NFRAMES && In(Taken(r), f)
      ensures f in s2.use && s2.use[f] == if f <= r.f0 + k then User(r.d, r.p0 + f - r.f0) else Loose
    {
      assert Added(s, s1, r.d, NONE, f);
    }
  }

  /** d's mappings are where they were. */
  ghost predicate SameMap(s: Vm, s': Vm, d: nat) {
    forall p :: 0 <= p < VPAGES ==> Pte(s'.mem, d, p) == Pte(s.mem, d, p)
  }

  ghost predicate Walked(s: Vm, s': Vm, d: nat) {
    Grown(s, s', d, NONE) && SameMap(s, s', d)
  }

  lemma WalkFacts(s: Vm, first: nat, d: nat, p: nat)
    requires Inv(s, first) && IsDir(s, d) && p < VPAGES
    ensures Walked(s, s, d) && d < NFRAMES == |s.mem| && |s.mem[d].words| == NWORDS
    ensures var pde := Word(s.mem, d, p / 1024);
            Present(pde) ==>
              Frame(pde) != 0 && Tables(s.mem, d) + {p / 1024} == Tables(s.mem, d) && Writable(pde) && ForUser(pde)
  {
    assert TableOk(s, d, p / 1024);
    assert Present(Word(s.mem, d, p / 1024)) ==> p / 1024 in Tables(s.mem, d);
  }

  /** Installing a fresh table. */
  lemma WalkStep(s: Vm, s1: Vm, first: nat, d: nat, p: nat, t: nat)
    requires Inv(s, first) && Inv(s1, first) && IsDir(s, d) && p < VPAGES && t != 0
    requires s.free == [t] + s1.free && t in s.use && s1.use == s.use[t := Loose] && s1.mem == s.mem[t := Filled(0)]
    requires !Present(Word(s.mem, d, p / 1024))
    ensures var s' := Vm(Put(s1.mem, d, p / 1024, Entry(t, 7)), s1.free, s1.use[t := Table(d, p / 1024)]);
            && Inv(s', first) && IsDir(s', d) && Walked(s, s', d)
            && Tables(s'.mem, d) == Tables(s.mem, d) + {p / 1024}
            && |Tables(s'.mem, d)| == |Tables(s.mem, d)| + 1
            && Word(s'.mem, d, p / 1024) == Entry(t, 7)
            && d < NFRAMES == |s1.mem| && |s1.mem[d].words| == NWORDS && d !in s'.free
  {
    assert s.free[0] == t;
    assert d != t;
    TableInv(s1, first, d, p / 1024, t, 7);
    var s' := Vm(Put(s1.mem, d, p / 1024, Entry(t, 7)), s1.free, s1.use[t := Table(d, p / 1024)]);
    forall p' | 0 <= p' < VPAGES ensures Pte(s'.mem, d, p') == Pte(s.mem, d, p') {
      SameSpaces(s, first, t, Filled(0), d, p');
      OneTable(s1, first, d, p / 1024, t, 7, d, p');
    }
    forall f | 0 <= f < NFRAMES ensures Added(s, s', d, NONE, f) {
    }
    assert p / 1024 !in Tables(s.mem, d);
    assert Tables(s'.mem, d) == Tables(s.mem, d) + {p / 1024};
  }

  // ---- what the hardware grants ----

  /** The kernel's half of every address space: all of physical memory and the devices are
      mapped, not for the user, and can be written but for the kernel's text and constants. */
  function KernelAccess(data: nat, p: nat): Access {
    if UPAGES <= p < UPAGES + NFRAMES then Access(true, !(UPAGES + 0x100 <= p < UPAGES + data), false)
    else if 0xFE000 <= p < VPAGES then Access(true, true, false)
    else NO_ACCESS
  }

  lemma KernelPteAccess(data: nat, p: nat)
    requires p < VPAGES
    ensures var pte := KernelPte(data, p);
            KernelAccess(data, p) == if Present(pte) then Access(true, Writable(pte), ForUser(pte)) else NO_ACCESS
    ensures UPAGES <= p && Present(KernelPte(data, p)) ==>
              Frame(KernelPte(data, p)) == if p < 0xFE000 then p - UPAGES else p
  {
    if UPAGES <= p < UPAGES + NFRAMES {
      assert KernelPte(data, p) == Entry(p - UPAGES, if 0x100 <= p - UPAGES < data then 0 else 2);
    } else if 0xFE000 <= p {
      assert KernelPte(data, p) == Entry(p, 2);
    }
  }

  /** Page p is accessible as the kernel's map says, and is where it says: memory from
      KERNBASE on, devices at their own addresses. */
  predicate KernelMapped(mem: seq<Page>, d: nat, data: nat, p: nat) {
    && Grant(mem, d, p) == KernelAccess(data, p)
    && (UPAGES <= p && Grant(mem, d, p).mapped ==> Frame(Pte(mem, d, p)) == if p < 0xFE000 then p - UPAGES else p)
  }

  lemma SetUpGrants(s0: Vm, s: Vm, first: nat, d: nat, data: nat)
    requires Inv(s, first) && 0x100 < data < NFRAMES && SetUp(s0, s, d, data, 4)
    ensures forall p :: 0 <= p < VPAGES ==> KernelMapped(s.mem, d, data, p)
  {
    hide Inv, Pte, Grant, KernelPte, KernelAccess, Grown, Tables, KTables;
    forall p: nat | p < VPAGES ensures KernelMapped(s.mem, d, data, p) {
      GrantIsEntry(s, first, d, p);
      KernelPteAccess(data, p);
      CoveredAll(data, p);
    }
  }

  lemma CoveredAll(data: nat, p: nat)
    requires 0x100 < data < NFRAMES && p < VPAGES
    ensures !Covered(data, 4, p) ==> KernelPte(data, p) == 0
  {
  }

  lemma AllocGrants(s: Vm, s': Vm, first: nat, d: nat, lo: nat, hi: nat)
    requires Inv(s, first) && Inv(s', first) && IsDir(s, d) && IsDir(s', d) && Allocated(s, s', d, lo, hi)
    ensures forall p :: 0 <= p < VPAGES ==>
              Grant(s'.mem, d, p) == if lo <= p < hi then USER_ACCESS else Grant(s.mem, d, p)
  {
    hide Inv, Pte, Grant, Grown, AllocCount;
    forall p: nat | p < VPAGES
      ensures Grant(s'.mem, d, p) == if lo <= p < hi then USER_ACCESS else Grant(s.mem, d, p)
    {
      GrantIsEntry(s, first, d, p);
      GrantIsEntry(s', first, d, p);
      assert lo <= p < hi ==> ZeroPage(s', d, p);
    }
  }

  lemma UnwoundGrants(s: Vm, s': Vm, first: nat, d: nat)
    requires Inv(s, first) && Inv(s', first) && IsDir(s, d) && IsDir(s', d) && Unwound(s, s', d)
    ensures forall p :: 0 <= p < VPAGES ==> Grant(s'.mem, d, p) == Grant(s.mem, d, p)
  {
    hide Inv, Pte, Grant, Grown;
    forall p: nat | p < VPAGES ensures Grant(s'.mem, d, p) == Grant(s.mem, d, p) {
      GrantIsEntry(s, first, d, p);
      GrantIsEntry(s', first, d, p);
      assert SameEntry(Pte(s.mem, d, p), Pte(s'.mem, d, p));
    }
  }

  lemma EmptiedGrants(s: Vm, s': Vm, first: nat, d: nat, lo: nat, hi: nat)
    requires Inv(s, first) && Inv(s', first) && IsDir(s, d) && IsDir(s', d) && Emptied(s, s', d, lo, hi)
    ensures forall p :: 0 <= p < VPAGES ==>
              Grant(s'.mem, d, p) == if lo <= p < hi then NO_ACCESS else Grant(s.mem, d, p)
  {
    hide Inv, Pte, Grant, PageWalk;
    forall p: nat | p < VPAGES
      ensures Grant(s'.mem, d, p) == if lo <= p < hi then NO_ACCESS else Grant(s.mem, d, p)
    {
      GrantIsEntry(s, first, d, p);
      GrantIsEntry(s', first, d, p);
    }
  }

  lemma CopyGrants(s0: Vm, s: Vm, first: nat, d: nat, e: nat, data: nat, n: nat)
    requires Inv(s0, first) && Inv(s, first) && IsDir(s0, d) && IsDir(s, e) && Copied(s0, s, d, e, data, n)
    requires n <= UPAGES && forall p :: 0 <= p < n ==> Present(Pte(s0.mem, d, p))
    ensures forall p :: 0 <= p < VPAGES ==>
              if p < n then Grant(s.mem, e, p) == Grant(s0.mem, d, p) else KernelMapped(s.mem, e, data, p)
  {
    hide Inv, Pte, Grant, Grown, Tables, KTables, KernelPte, KernelAccess;
    forall p: nat | p < VPAGES
      ensures if p < n then Grant(s.mem, e, p) == Grant(s0.mem, d, p) else KernelMapped(s.mem, e, data, p)
    {
      GrantIsEntry(s0, first, d, p);
      GrantIsEntry(s, first, e, p);
      KernelPteAccess(data, p);
      assert p < n ==> CopyOf(s0, s, d, e, p);
    }
  }

  // ---- the kernel ----

  class Kernel {
    var mem: seq<Page>
    var freelist: nat
    ghost var free: seq<nat>
    ghost var use: map<nat, Use>
    const first: nat    // the first frame past the kernel image
    const data: nat     // the frame where the kernel's data segment starts

    ghost function S(): Vm reads this { Vm(mem, free, use) }

    ghost predicate Valid() reads this {
      Inv(S(), first) && Linked(mem, freelist, free) && 0x100 < data < first <= NFRAMES
    }

    /** kinit1 and kinit2: freerange puts every page past the kernel on the list. */
    constructor (boot: seq<Page>, first: nat, data: nat)
      requires Shaped(boot) && 0x100 < data < first <= NFRAMES
      ensures Valid() && this.first == first && this.data == data
      ensures |free| == NFRAMES - first && forall f :: first <= f < NFRAMES ==> IsFree(S(), f)
    {
      this.first, this.data := first, data;
      mem, freelist, free := boot, 0, [];
      use := AllFree(first);
      new;
      var p := first;
      while p < NFRAMES
        invariant first <= p <= NFRAMES && FreeList(mem, freelist, free, first)
        invariant |free| == p - first && forall k :: 0 <= k < |free| ==> free[k] == p - 1 - k
        invariant use == AllFree(first)
      {
        Kfree(p);
        p := p + 1;
      }
      forall f | f in use ensures InUse(S(), f) {
        assert free[p - 1 - f] == f;
      }
    }

    /** kalloc (the source returns the page's address; 0 is no page). */
    method Kalloc() returns (f: nat)
      requires Valid()
      modifies this
      ensures Valid() && mem == old(mem)
      ensures f == 0 <==> old(free) == []
      ensures f == 0 ==> free == old(free) && use == old(use)
      ensures f != 0 ==> old(free) == [f] + free && f in old(use) && use == old(use)[f := Loose]
    {
      hide Inv, Linked;
      assert freelist == Link(free, 0) by { Head(mem, freelist, free); }
      if freelist == 0 {
        return 0;
      }
      Pop(mem, freelist, free);
      TakeInv(S(), first);
      f := (freelist - KERNBASE) / PGSIZE;
      freelist := Word(mem, f, 0);
      use := use[f := Loose];
      free := free[1..];
    }

    /** kfree. Its panics are excluded: f is a managed page. */
    method Kfree(f: nat)
      requires FreeList(mem, freelist, free, first) && first <= f < NFRAMES && f !in free
      modifies this`mem, this`freelist, this`free
      ensures FreeList(mem, freelist, free, first)
      ensures free == [f] + old(free) && mem == old(mem)[f := Junk(old(freelist))]
    {
      mem := mem[f := Junk(freelist)];
      freelist := KERNBASE + f * PGSIZE;
      free := [f] + free;
      forall k | 0 <= k < |free| ensures Word(mem, free[k], 0) == Link(free, k + 1) {
        if k > 0 { assert free[k] == old(free)[k - 1]; }
      }
    }

    /** Freeing a page that no address space has. */
    method KfreeLoose(f: nat)
      requires Valid() && f in use && use[f].Loose?
      modifies this
      ensures Valid() && free == [f] + old(free) && use == old(use)[f := Free]
      ensures |mem| == |old(mem)| && forall g :: 0 <= g < |mem| && g != f ==> mem[g] == old(mem)[g]
    {
      GiveInv(S(), first, f, Junk(freelist));
      Kfree(f);
      use := use[f := Free];
    }

    /** memset or memmove of a whole page. */
    method Fill(f: nat, page: Page)
      requires Valid() && f in use && use[f].Loose? && |page.words| == NWORDS
      modifies this`mem
      ensures Valid() && mem == old(mem)[f := page]
    {
      FillInv(S(), first, f, page);
      LinkedKept(mem, mem[f := page], freelist, free);
      mem := mem[f := page];
    }

    /** walkpgdir: the table that holds the entry of virtual page p, 0 if there is
        none and none could be made. The address spaces stay as they were. */
    method Walk(d: nat, p: nat, alloc: bool) returns (t: nat)
      requires Valid() && IsDir(S(), d) && p < VPAGES
      modifies this
      ensures Valid() && IsDir(S(), d) && Walked(old(S()), S(), d)
      ensures t == 0 <==> !Present(Word(old(mem), d, p / 1024)) && (!alloc || old(free) == [])
      ensures t == 0 || !alloc ==> S() == old(S())
      ensures t != 0 ==>
                var pde := Word(mem, d, p / 1024); Present(pde) && t == Frame(pde) && Writable(pde) && ForUser(pde)
      ensures t != 0 ==> Tables(mem, d) == Tables(old(mem), d) + {p / 1024}
      ensures |free| + |Tables(mem, d)| == |old(free)| + |Tables(old(mem), d)|
    {
      hide Inv, Walked, Linked, Tables, Pte;
      WalkFacts(S(), first, d, p);
      var pde := Word(mem, d, p / 1024);
      if Present(pde) {
        return Frame(pde);
      }
      t := 0;
      if alloc {
        t := Kalloc();
      }
      if t == 0 {
        return;
      }
      Fill(t, Filled(0));
      WalkStep(old(S()), S(), first, d, p, t);
      LinkedKept(mem, Put(mem, d, p / 1024, Entry(t, 7)), freelist, free);
      mem := Put(mem, d, p / 1024, Entry(t, 7));
      use := use[t := Table(d, p / 1024)];
    }

    /** mappages. When no page is left for a table, k pages have been mapped. */
    method Mappages(d: nat, va: nat, size: nat, pa: nat, perm: nat) returns (ok: bool, ghost k: nat)
      requires Valid() && size > 0 && va + size <= WRAP && pa % PGSIZE == 0 && perm < PGSIZE
      requires RegionOk(S(), RegionOf(d, va, size, pa, perm))
      modifies this
      ensures Valid() && IsDir(S(), d)
      ensures var r := RegionOf(d, va, size, pa, perm);
              && k <= r.n && (ok <==> k == r.n) && Mapped(old(S()), S(), r, k)
              && (!ok ==> free == [] && (r.p0 + k) / 1024 !in Tables(mem, d))
      ensures k == 0 ==> S() == old(S())
    {
      hide Inv, Mapped, Walked, Linked, Tables, Pte, RegionOk;
      ghost var s0, r := S(), RegionOf(d, va, size, pa, perm);
      var a, last, f := va / PGSIZE, (va + size - 1) / PGSIZE, pa / PGSIZE;
      k := 0;
      RegionFacts(s0, first, r);
      while true
        invariant k < r.n && a == r.p0 + k && f == r.f0 + k && last == r.p0 + r.n - 1
        invariant Valid() && IsDir(S(), d) && Mapped(s0, S(), r, k) && (k == 0 ==> S() == s0)
        decreases r.n - k
      {
        ghost var s := S();
        WalkFacts(s, first, d, a);
        var t := Walk(d, a, true);
        if t == 0 {
          NoTable(s, d, a);
          return false, k;
        }
        MapNext(s0, s, S(), first, r, k);
        assert !Present(Word(mem, t, a % 1024));
        LinkedKept(mem, Put(mem, t, a % 1024, Entry(f, perm)), freelist, free);
        mem := Put(mem, t, a % 1024, Entry(f, perm));
        use := if a < UPAGES then use[f := User(d, a)] else use;
        k := k + 1;
        if a == last {
          return true, k;
        }
        a, f := a + 1, f + 1;
      }
    }

    /** The inner step of deallocuvm: free the page, clear its entry. The panic
        on a page at address 0 cannot happen, nor can kfree's: a mapped user page
        is a managed page. */
    method FreeUser(d: nat, p: nat, t: nat)
      requires Valid() && IsDir(S(), d) && p < UPAGES && Present(Pte(mem, d, p)) && t == Frame(Word(mem, d, p / 1024))
      modifies this
      ensures Valid() && IsDir(S(), d) && S() == Cleared(old(S()), d, p, Junk(old(freelist)))
    {
      hide Inv, Linked, FreeOk, Pte;
      ghost var s, page := S(), Junk(freelist);
      PteFacts(s, first, d, p);
      UserFacts(s, first, d, p, freelist);
      UnmapInv(s, first, d, p, page);
      var f := Frame(Word(mem, t, p % 1024));
      assert f != 0;
      Kfree(f);
      StillLinked(mem, freelist, free, first, t, p % 1024);
      mem := Put(mem, t, p % 1024, 0);
      use := use[f := Free];
    }

    /** deallocuvm. */
    method Deallocuvm(d: nat, oldsz: nat, newsz: nat) returns (r: nat)
      requires Valid() && IsDir(S(), d) && oldsz <= KERNBASE
      modifies this
      ensures Valid() && IsDir(S(), d) && mem[d] == old(mem)[d]
      ensures newsz >= oldsz ==> r == oldsz && S() == old(S())
      ensures newsz < oldsz ==> r == newsz && Emptied(old(S()), S(), d, Pages(newsz), Pages(oldsz))
      ensures forall p :: 0 <= p < VPAGES ==>
                Grant(mem, d, p) == if Pages(newsz) <= p < Pages(oldsz) then NO_ACCESS else Grant(old(mem), d, p)
    {
      hide Inv, Emptied, Linked, Pte, Grant;
      if newsz >= oldsz {
        return oldsz;
      }
      ghost var s0 := S();
      ghost var lo, hi := Pages(newsz), Pages(oldsz);
      var p := Pages(newsz);    // the page at address a
      EmptiedNone(s0, first, d, lo);
      WalkFacts(s0, first, d, 0);
      while p * PGSIZE < oldsz
        invariant lo <= p
        invariant Valid() && IsDir(S(), d) && d < |s0.mem| == |mem| && mem[d] == s0.mem[d]
        invariant Emptied(s0, S(), d, lo, if p <= hi then p else hi)
        decreases hi - p
      {
        assert p < hi <= UPAGES;
        var t := Walk(d, p, false);
        if t == 0 {
          ghost var p0 := p;
          p := (p / 1024 + 1) * 1024 - 1;
          TableSkip(s0, S(), first, d, lo, p0, if p + 1 <= hi then p + 1 else hi);
        } else if Present(Word(mem, t, p % 1024)) {
          PteWord(mem, d, p);
          EmptiedOne(s0, S(), first, d, lo, p, Junk(freelist));
          FreeUser(d, p, t);
        } else {
          PteWord(mem, d, p);
          PageSkip(s0, S(), first, d, lo, p);
        }
        p := p + 1;
      }
      EmptiedGrants(s0, S(), first, d, lo, hi);
      return newsz;
    }

    /** freevm: everything the directory owned is free again. */
    method Freevm(d: nat)
      requires Valid() && IsDir(S(), d)
      modifies this
      ensures Valid() && Freed(old(S()), S(), d)
    {
      hide Inv, Linked, Pte, Emptied, Freed;
      ghost var s0 := S();
      var _ := Deallocuvm(d, KERNBASE, 0);
      ghost var s1 := S();
      DropReady(s0, s1, first, d);
      use := Dropped(s1, d);
      var i := 0;
      while i < NWORDS
        invariant 0 <= i <= NWORDS && Valid() && TablesGone(s1, S(), d, i)
      {
        ghost var s := S();
        NextTable(s1, s, first, d, i);
        var pde := Word(mem, d, i);
        if Present(pde) {
          KfreeLoose(Frame(pde));
        }
        TableGone(s1, s, S(), first, d, i);
        i := i + 1;
      }
      ghost var s := S();
      LastLoose(s1, s, first, d);
      KfreeLoose(d);
      AllGone(s0, s1, s, S(), first, d);
    }

    /** setupkvm (0 is no directory). */
    method Setupkvm() returns (d: nat)
      requires Valid()
      modifies this
      ensures Valid()
      ensures d != 0 <==> |old(free)| >= 65
      ensures d == 0 ==> RolledBack(old(S()), S())
      ensures d != 0 ==> SetUp(old(S()), S(), d, data, 4)
      ensures d != 0 ==> forall p :: 0 <= p < VPAGES ==> KernelMapped(mem, d, data, p)
    {
      hide Inv, Linked, Pte, SetUp, RolledBack, Mapped, Freed, Tables, KTables, RegionOk, Grown, Grant,
        KernelMapped;
      ghost var s0 := S();
      d := Kalloc();
      if d == 0 {
        RolledRefl(s0, first);
        return;
      }
      Fill(d, Filled(0));
      SetUpNone(s0, S(), first, d, data);
      use := use[d := Dir];
      var kmap, k := KernelMap(data), 0;
      while k < 4
        invariant 0 <= k <= 4 && Valid() && SetUp(s0, S(), d, data, k)
      {
        ghost var s := S();
        KRegionOf(d, data, k);
        SetUpRegion(s0, s, first, d, data, k);
        var ok, n := Mappages(d, kmap[k].virt, Size(kmap[k]), kmap[k].start, kmap[k].perm);
        if !ok {
          SetUpFails(s0, s, S(), d, data, k, n);
          ghost var s1 := S();
          Freevm(d);
          GivenUp(s0, s1, S(), first, d);
          return 0;
        }
        SetUpNext(s0, s, S(), d, data, k);
        k := k + 1;
      }
      SetUpDone(s0, S(), d, data);
      SetUpGrants(s0, S(), first, d, data);
    }

    /** A page from kalloc, filled and mapped at virtual page p. Without memory
        for the page f is 0; without memory for its table f is left loose. */
    method NewPage(d: nat, p: nat, page: Page, perm: nat) returns (f: nat, ok: bool)
      requires Valid() && IsDir(S(), d) && p < UPAGES && !Present(Pte(mem, d, p)) && |page.words| == NWORDS
               && perm < PGSIZE
      modifies this
      ensures Valid() && IsDir(S(), d)
      ensures f == 0 <==> old(free) == []
      ensures f == 0 ==> !ok && S() == old(S())
      ensures f != 0 && !ok ==> LeftLoose(old(S()), S(), f) && p / 1024 !in Tables(old(mem), d)
      ensures ok ==> OnePage(old(S()), S(), d, p, f, page, perm)
    {
      hide Inv, Linked, Pte, Mapped, OnePage, RegionOk, Tables, LeftLoose;
      ghost var s0 := S();
      f := Kalloc();
      if f == 0 {
        return 0, false;
      }
      ghost var s := S();
      InvFacts(s, first, f);
      Fill(f, page);
      OneRegion(s0, s, S(), first, d, p, f, page, perm);
      ghost var s1 := S();
      ghost var k;
      ok, k := Mappages(d, p * PGSIZE, PGSIZE, f * PGSIZE, perm);
      if ok {
        OneMapped(s0, s1, S(), first, d, p, f, page, perm);
      }
    }

    /** allocuvm. It panics ("remap") if a page it is to add is mapped already. */
    method Allocuvm(d: nat, oldsz: nat, newsz: nat) returns (r: nat)
      requires Valid() && IsDir(S(), d)
      requires newsz < KERNBASE ==> forall p :: Pages(oldsz) <= p < Pages(newsz) ==> !Present(Pte(mem, d, p))
      modifies this
      ensures Valid() && IsDir(S(), d)
      ensures newsz >= KERNBASE ==> r == 0 && S() == old(S())
      ensures newsz < KERNBASE && newsz < oldsz ==> r == oldsz && S() == old(S())
      ensures oldsz <= newsz < KERNBASE ==>
        if Enough(old(S()), d, Pages(oldsz), Pages(newsz)) then
          r == newsz && Allocated(old(S()), S(), d, Pages(oldsz), Pages(newsz))
        else r == 0 && Unwound(old(S()), S(), d)
      ensures forall p :: 0 <= p < VPAGES ==>
                Grant(mem, d, p) == if r == newsz && Pages(oldsz) <= p < Pages(newsz) then USER_ACCESS
                                    else Grant(old(mem), d, p)
    {
      hide Inv, Linked, Pte, OnePage, Tables, LeftLoose, Allocated, Unwound, Enough, Emptied, Grant;
      if newsz >= KERNBASE {
        return 0;
      }
      if newsz < oldsz {
        return oldsz;
      }
      ghost var s0, lo, hi := S(), Pages(oldsz), Pages(newsz);
      var p := Pages(oldsz);    // the page at address a
      AllocatedNone(s0, first, d, lo);
      while p * PGSIZE < newsz
        invariant lo <= p <= hi
        invariant Valid() && IsDir(S(), d) && Allocated(s0, S(), d, lo, p)
        decreases hi - p
      {
        ghost var s := S();
        StillUnmapped(s0, s, d, lo, p);
        var f, ok := NewPage(d, p, Filled(0), 6);
        if !ok {
          ghost var s1 := S();
          AllocFacts(s0, s, s1, d, lo, p, f);
          NotEnough(s0, s, d, lo, p, hi);
          var _ := Deallocuvm(d, newsz, oldsz);
          ghost var s2 := S();
          if f != 0 {
            LooseKept(s1, s2, d, lo, hi, f);
            KfreeLoose(f);
          }
          AllocUndone(s0, s, s1, s2, S(), first, d, lo, p, hi, f);
          UnwoundGrants(s0, S(), first, d);
          return 0;
        }
        AllocatedNext(s0, s, S(), first, d, lo, p, f);
        p := p + 1;
      }
      EnoughThen(s0, S(), d, lo, hi);
      AllocGrants(s0, S(), first, d, lo, hi);
      return newsz;
    }

    /** copyuvm (0 is no directory). It panics, ok being false, at the first page below sz
        that is not mapped, if memory lasts so far. */
    method Copyuvm(d: nat, sz: nat) returns (ok: bool, e: nat)
      requires Valid() && IsDir(S(), d) && sz <= KERNBASE
      modifies this
      ensures var m := FirstMissing(old(mem), d, 0, Pages(sz));
              var fits := |old(free)| >= 65 + m + (m + 1023) / 1024;
              && (ok <==> !(fits && m < Pages(sz)))
              && (ok ==> Valid() && (e != 0 <==> fits))
      ensures ok && e == 0 ==> RolledBack(old(S()), S())
      ensures ok && e != 0 ==> IsDir(S(), e) && Copied(old(S()), S(), d, e, data, Pages(sz))
      ensures ok && e != 0 ==> forall p :: 0 <= p < VPAGES ==>
                if p < Pages(sz) then Grant(mem, e, p) == Grant(old(mem), d, p) else KernelMapped(mem, e, data, p)
    {
      hide Inv, Linked, Pte, SetUp, RolledBack, OnePage, Tables, LeftLoose, Freed, Copied, Grown, Grant, KernelMapped;
      ghost var s0, n := S(), FirstMissing(mem, d, 0, Pages(sz));
      ok := true;
      e := Setupkvm();
      if e == 0 {
        return;
      }
      CopiedNone(s0, S(), d, e, data);
      var p := 0;    // the page at address i
      while p * PGSIZE < sz
        invariant 0 <= p <= n <= Pages(sz) && Valid() && IsDir(S(), e) && Copied(s0, S(), d, e, data, p)
        decreases Pages(sz) - p
      {
        ghost var s := S();
        ParentKept(s0, s, first, d, e, data, p);
        var t := Walk(d, p, false);
        if t == 0 || !Present(Word(mem, t, p % 1024)) {
          if t != 0 { PteWord(mem, d, p); } else { NoTablePte(mem, d, p); }
          CopyCount(s0, s, d, e, data, p);
          return false, 0;
        }
        PteWord(mem, d, p);
        PteFacts(s, first, d, p);
        var pte := Word(mem, t, p % 1024);
        var f, mapped := NewPage(e, p, mem[Frame(pte)], Flags(pte));
        if !mapped {
          CopyShort(s0, s, S(), d, e, data, p, n, f);
          ghost var s1 := S();
          if f != 0 {
            KfreeLoose(f);
          }
          CopyUndone(s0, s, s1, S(), first, d, e, data, p, f);
          ghost var s2 := S();
          Freevm(e);
          GivenUp(s0, s2, S(), first, e);
          return true, 0;
        }
        CopiedNext(s0, s, S(), first, d, e, data, p, f);
        p := p + 1;
      }
      CopyCount(s0, S(), d, e, data, n);
      CopyGrants(s0, S(), first, d, e, data, n);
    }
  }
}
