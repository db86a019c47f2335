/** The address spaces of all processes, as growproc, fork, exec and wait (proc.c, exec.c)
    use vm.c: each maps exactly the pages below its process's size, and what is done to
    one leaves the others alone. */
module AddressSpaces {
  import opened Paging
  import opened VirtualMemory

  /** Page p of directory d: the user pages from lo up to hi may be read and written by user
      code, no other user page is mapped, and the kernel's half is the kernel's. */
  predicate MapsRight(s: Vm, data: nat, d: nat, lo: nat, hi: nat, p: nat) {
    if p < UPAGES then Grant(s.mem, d, p) == if lo <= p < hi then USER_ACCESS else NO_ACCESS
    else KernelMapped(s.mem, d, data, p)
  }

  /** Directory d maps exactly the user pages from lo up to hi. */
  ghost predicate Exact(s: Vm, data: nat, d: nat, lo: nat, hi: nat) {
    IsDir(s, d) && lo <= hi <= UPAGES && forall p :: 0 <= p < VPAGES ==> MapsRight(s, data, d, lo, hi, p)
  }

  /** Page p of directory d is mapped where it was, as it was, and holds what it held. */
  predicate SamePage(s: Vm, s': Vm, d: nat, p: nat) {
    var pte := Pte(s.mem, d, p);
    && Pte(s'.mem, d, p) == pte && Grant(s'.mem, d, p) == Grant(s.mem, d, p)
    && (p < UPAGES && Present(pte) ==>
          Frame(pte) < |s.mem| && Frame(pte) < |s'.mem| && s'.mem[Frame(pte)] == s.mem[Frame(pte)])
  }

  /** Directory d and all it maps are as they were. */
  ghost predicate Undisturbed(s: Vm, s': Vm, d: nat) {
    IsDir(s', d) && forall p :: 0 <= p < VPAGES ==> SamePage(s, s', d, p)
  }

  /** The other directories stay, and none but d comes or goes. */
  ghost predicate Others(s: Vm, s': Vm, d: nat) {
    forall e: nat :: e != d ==> (IsDir(s', e) <==> IsDir(s, e)) && (IsDir(s, e) ==> Undisturbed(s, s', e))
  }

  lemma SameIsOthers(s: Vm, first: nat, d: nat)
    requires Inv(s, first) && IsDir(s, d)
    ensures Others(s, s, d) && forall p :: 0 <= p < VPAGES ==> SamePage(s, s, d, p)
  {
    forall e: nat, p: nat | IsDir(s, e) && p < VPAGES ensures SamePage(s, s, e, p) {
      if p < UPAGES && Present(Pte(s.mem, e, p)) { PteFacts(s, first, e, p); }
    }
  }

  /** A step that adds pages leaves what was mapped. */
  lemma GrownKeeps(s: Vm, s': Vm, first: nat, d: nat, e: nat, p: nat)
    requires Inv(s, first) && Inv(s', first) && Grown(s, s', d, NONE) && IsDir(s, e) && IsDir(s', e) && p < VPAGES
    requires (IsDir(s, d) || IsFree(s, d)) && Pte(s'.mem, e, p) == Pte(s.mem, e, p)
    ensures SamePage(s, s', e, p)
  {
    hide Pte, Grant;
    GrantIsEntry(s, first, e, p);
    GrantIsEntry(s', first, e, p);
    if p < UPAGES && Present(Pte(s.mem, e, p)) {
      PteFacts(s, first, e, p);
      assert Added(s, s', d, NONE, Frame(Pte(s.mem, e, p)));
    }
  }

  lemma GrownOthers(s: Vm, s': Vm, first: nat, d: nat)
    requires Inv(s, first) && Inv(s', first) && Grown(s, s', d, NONE) && (IsDir(s, d) || IsFree(s, d))
    ensures Others(s, s', d)
  {
    hide Pte;
    forall e: nat | e != d ensures IsDir(s', e) <==> IsDir(s, e) {
      if e < NFRAMES { assert Added(s, s', d, NONE, e); }
    }
    forall e: nat, p: nat | e != d && IsDir(s, e) && p < VPAGES ensures SamePage(s, s', e, p) {
      OtherSpaces(s, s', first, d, NONE, e, p);
      GrownKeeps(s, s', first, d, e, p);
    }
  }

  /** What a directory other than d maps is in pages that d has no part in. */
  lemma KeptSpace(s: Vm, s': Vm, first: nat, d: nat, e: nat, p: nat)
    requires Inv(s, first) && IsDir(s, e) && p < VPAGES && e != d && |s.mem| == |s'.mem|
    requires forall f :: 0 <= f < NFRAMES && f in s.use && !s.use[f].Free? && !Mine(s, d, f) ==> s'.mem[f] == s.mem[f]
    ensures SamePage(s, s', e, p)
  {
    assert TableOk(s, e, p / 1024);
    if p < UPAGES && Present(Pte(s.mem, e, p)) { PteFacts(s, first, e, p); }
  }

  lemma EmptiedOthers(s: Vm, s': Vm, first: nat, d: nat, lo: nat, hi: nat)
    requires Inv(s, first) && Inv(s', first) && Emptied(s, s', d, lo, hi)
    ensures Others(s, s', d)
  {
    hide Pte, PageWalk;
    forall f | 0 <= f < NFRAMES && f in s.use && !s.use[f].Free? && !Mine(s, d, f) ensures s'.mem[f] == s.mem[f] {
      assert Released(s, s', d, lo, hi, f);
    }
    forall e: nat ensures IsDir(s', e) <==> IsDir(s, e) {
      if e < NFRAMES { assert Released(s, s', d, lo, hi, e); }
    }
    forall e: nat, p: nat | e != d && IsDir(s, e) && p < VPAGES ensures SamePage(s, s', e, p) {
      KeptSpace(s, s', first, d, e, p);
    }
  }

  lemma FreedOthers(s: Vm, s': Vm, first: nat, d: nat)
    requires Inv(s, first) && Inv(s', first) && IsDir(s, d) && Freed(s, s', d)
    ensures Others(s, s', d) && !IsDir(s', d)
  {
    forall f | 0 <= f < NFRAMES && f in s.use && !s.use[f].Free? && !Mine(s, d, f) ensures s'.mem[f] == s.mem[f] {
      assert GivenBack(s, s', d, f);
    }
    assert GivenBack(s, s', d, d);
    forall e: nat | e != d ensures IsDir(s', e) <==> IsDir(s, e) {
      if e < NFRAMES { assert GivenBack(s, s', d, e); }
    }
    forall e: nat, p: nat | e != d && IsDir(s, e) && p < VPAGES ensures SamePage(s, s', e, p) {
      KeptSpace(s, s', first, d, e, p);
    }
  }

  lemma RolledOthers(s: Vm, s': Vm, first: nat)
    requires Inv(s, first) && RolledBack(s, s')
    ensures forall e: nat :: (IsDir(s', e) <==> IsDir(s, e)) && (IsDir(s, e) ==> Undisturbed(s, s', e))
  {
    forall e: nat, p: nat | IsDir(s, e) && p < VPAGES ensures SamePage(s, s', e, p) {
      assert TableOk(s, e, p / 1024);
      if p < UPAGES && Present(Pte(s.mem, e, p)) { PteFacts(s, first, e, p); }
    }
  }

  lemma ExactKept(s: Vm, s': Vm, data: nat, d: nat, lo: nat, hi: nat)
    requires Exact(s, data, d, lo, hi) && Undisturbed(s, s', d)
    ensures Exact(s', data, d, lo, hi)
  {
    hide Pte;
    forall p: nat | p < VPAGES ensures MapsRight(s', data, d, lo, hi, p) {
      assert SamePage(s, s', d, p) && MapsRight(s, data, d, lo, hi, p);
    }
  }


  // ---- what each call makes of the pages mapped ----

  function Min(x: nat, y: nat): nat { if x < y then x else y }

  lemma MappedIff(s: Vm, data: nat, d: nat, lo: nat, hi: nat)
    requires Exact(s, data, d, lo, hi)
    ensures forall p :: 0 <= p < UPAGES ==> (Present(Pte(s.mem, d, p)) <==> lo <= p < hi)
  {
    forall p: nat | p < UPAGES ensures Present(Pte(s.mem, d, p)) <==> lo <= p < hi {
      assert MapsRight(s, data, d, lo, hi, p);
    }
  }

  lemma AllocExact(s: Vm, s': Vm, first: nat, data: nat, d: nat, low: nat, lo: nat, hi: nat)
    requires Inv(s, first) && Inv(s', first) && Exact(s, data, d, low, lo) && Allocated(s, s', d, lo, hi)
    requires lo <= hi <= UPAGES
    ensures Exact(s', data, d, low, hi) && forall p :: 0 <= p < lo ==> SamePage(s, s', d, p)
  {
    hide Pte, Grant;
    assert Added(s, s', d, NONE, d);
    AllocGrants(s, s', first, d, lo, hi);
    forall p: nat | p < lo ensures SamePage(s, s', d, p) { GrownKeeps(s, s', first, d, d, p); }
    forall p: nat | p < VPAGES ensures MapsRight(s', data, d, low, hi, p) {
      assert MapsRight(s, data, d, low, lo, p);
    }
  }

  lemma UnwoundExact(s: Vm, s': Vm, first: nat, data: nat, d: nat, low: nat, hi: nat)
    requires Inv(s, first) && Inv(s', first) && Exact(s, data, d, low, hi) && Unwound(s, s', d)
    ensures Exact(s', data, d, low, hi) && forall p :: low <= p < hi ==> SamePage(s, s', d, p)
  {
    hide Pte;
    assert Added(s, s', d, NONE, d);
    UnwoundGrants(s, s', first, d);
    forall p: nat | low <= p < hi ensures SamePage(s, s', d, p) {
      assert SameEntry(Pte(s.mem, d, p), Pte(s'.mem, d, p)) && MapsRight(s, data, d, low, hi, p);
      GrownKeeps(s, s', first, d, d, p);
    }
    forall p: nat | p < VPAGES ensures MapsRight(s', data, d, low, hi, p) {
      assert MapsRight(s, data, d, low, hi, p) && SameEntry(Pte(s.mem, d, p), Pte(s'.mem, d, p));
    }
  }

  lemma EmptiedExact(s: Vm, s': Vm, first: nat, data: nat, d: nat, low: nat, lo: nat, hi: nat)
    requires Inv(s, first) && Inv(s', first) && Exact(s, data, d, low, hi) && Emptied(s, s', d, lo, hi) && lo <= hi
    ensures Exact(s', data, d, Min(low, lo), lo) && forall p :: 0 <= p < lo ==> SamePage(s, s', d, p)
  {
    hide Pte, PageWalk, Grant;
    assert Released(s, s', d, lo, hi, d);
    EmptiedGrants(s, s', first, d, lo, hi);
    forall p: nat | p < lo ensures SamePage(s, s', d, p) {
      if Present(Pte(s.mem, d, p)) {
        PteFacts(s, first, d, p);
        assert Released(s, s', d, lo, hi, Frame(Pte(s.mem, d, p)));
      }
    }
    forall p: nat | p < VPAGES ensures MapsRight(s', data, d, Min(low, lo), lo, p) {
      assert MapsRight(s, data, d, low, hi, p);
    }
  }

  /** Only growproc(-sz) leaves nothing mapped under a size that is not 0. */
  lemma NothingLeft(s: Vm, data: nat, d: nat, hi: nat)
    requires Exact(s, data, d, 0, 0) && hi <= UPAGES
    ensures Exact(s, data, d, hi, hi)
  {
    hide Grant;
    forall p: nat | p < VPAGES ensures MapsRight(s, data, d, hi, hi, p) { assert MapsRight(s, data, d, 0, 0, p); }
  }

  lemma SetUpExact(s: Vm, s': Vm, first: nat, d: nat, data: nat)
    requires Inv(s', first) && 0x100 < data < NFRAMES && SetUp(s, s', d, data, 4)
    ensures Exact(s', data, d, 0, 0)
  {
    hide Pte, Grant;
    SetUpGrants(s, s', first, d, data);
    forall p: nat | p < VPAGES ensures MapsRight(s', data, d, 0, 0, p) { assert KernelMapped(s'.mem, d, data, p); }
  }

  lemma CopiedExact(s: Vm, s': Vm, first: nat, d: nat, e: nat, data: nat, n: nat)
    requires Inv(s, first) && Inv(s', first) && Exact(s, data, d, 0, n) && IsDir(s', e) && Copied(s, s', d, e, data, n)
    ensures Exact(s', data, e, 0, n)
  {
    hide Pte, Inv, Copied;
    MappedIff(s, data, d, 0, n);
    CopyGrants(s, s', first, d, e, data, n);
    forall p: nat | p < VPAGES ensures MapsRight(s', data, e, 0, n, p) {
      assert p < n ==> MapsRight(s, data, d, 0, n, p);
      assert p >= n ==> KernelMapped(s'.mem, e, data, p);
    }
  }

  // ---- all of them ----

  /** Every directory maps exactly the pages from low up to its process's size. */
  ghost predicate Described(s: Vm, data: nat, sz: map<nat, nat>, low: map<nat, nat>) {
    && sz.Keys == low.Keys
    && (forall d: nat :: IsDir(s, d) <==> d in sz)
    && (forall d: nat :: d in sz ==> sz[d] <= KERNBASE && Exact(s, data, d, low[d], Pages(sz[d])))
  }

  lemma DirOf(s: Vm, data: nat, sz: map<nat, nat>, low: map<nat, nat>, d: nat)
    requires Described(s, data, sz, low) && d in sz
    ensures d in low && IsDir(s, d) && sz[d] <= KERNBASE && Pages(sz[d]) <= UPAGES
  {
  }

  lemma OneMoved(s: Vm, s': Vm, data: nat, d: nat, sz: map<nat, nat>, low: map<nat, nat>, n: nat, l: nat)
    requires Described(s, data, sz, low) && Others(s, s', d) && n <= KERNBASE && Exact(s', data, d, l, Pages(n))
    ensures Described(s', data, sz[d := n], low[d := l])
  {
    hide Undisturbed;
    forall e: nat | e in sz && e != d ensures Exact(s', data, e, low[e], Pages(sz[e])) {
      ExactKept(s, s', data, e, low[e], Pages(sz[e]));
    }
  }

  lemma OneGone(s: Vm, s': Vm, data: nat, d: nat, sz: map<nat, nat>, low: map<nat, nat>)
    requires Described(s, data, sz, low) && Others(s, s', d) && !IsDir(s', d)
    ensures Described(s', data, sz - {d}, low - {d})
  {
    hide Exact, Undisturbed;
    forall e: nat | e in sz && e != d ensures Exact(s', data, e, low[e], Pages(sz[e])) {
      ExactKept(s, s', data, e, low[e], Pages(sz[e]));
    }
  }

  lemma NoneMoved(s: Vm, s': Vm, first: nat, data: nat, sz: map<nat, nat>, low: map<nat, nat>)
    requires Inv(s, first) && Described(s, data, sz, low) && RolledBack(s, s')
    ensures Described(s', data, sz, low) && forall d: nat :: Others(s, s', d)
  {
    hide Exact, Undisturbed;
    RolledOthers(s, s', first);
    forall e: nat | e in sz ensures Exact(s', data, e, low[e], Pages(sz[e])) {
      ExactKept(s, s', data, e, low[e], Pages(sz[e]));
    }
  }

  // ---- the calls ----

  lemma Made(s: Vm, s': Vm, first: nat, d: nat, data: nat, sz: map<nat, nat>, low: map<nat, nat>)
    requires Inv(s, first) && Inv(s', first) && Described(s, data, sz, low)
    requires 0x100 < data < NFRAMES && SetUp(s, s', d, data, 4)
    ensures d !in sz && Others(s, s', d) && Described(s', data, sz[d := 0], low[d := 0])
  {
    hide Pte, Inv, Exact, Others, Grown;
    GrownOthers(s, s', first, d);
    SetUpExact(s, s', first, d, data);
    OneMoved(s, s', data, d, sz, low, 0, 0);
  }

  lemma Cloned(s: Vm, s': Vm, first: nat, d: nat, e: nat, data: nat, sz: map<nat, nat>, low: map<nat, nat>)
    requires Inv(s, first) && Inv(s', first) && Described(s, data, sz, low) && d in sz && low[d] == 0
    requires IsDir(s', e) && Copied(s, s', d, e, data, Pages(sz[d]))
    ensures e !in sz && Others(s, s', e) && Described(s', data, sz[e := sz[d]], low[e := 0])
  {
    hide Pte, Inv, Exact, Others, Grown, Tables, KTables;
    GrownOthers(s, s', first, e);
    CopiedExact(s, s', first, d, e, data, Pages(sz[d]));
    OneMoved(s, s', data, e, sz, low, sz[d], 0);
  }

  /** New pages from the size up, by allocuvm. */
  lemma Extended(s: Vm, s': Vm, first: nat, data: nat, d: nat, n: nat, sz: map<nat, nat>, low: map<nat, nat>)
    requires Inv(s, first) && Inv(s', first) && Described(s, data, sz, low) && d in sz && sz[d] <= n <= KERNBASE
    requires Allocated(s, s', d, Pages(sz[d]), Pages(n))
    ensures Others(s, s', d) && Described(s', data, sz[d := n], low)
    ensures forall p :: 0 <= p < Pages(sz[d]) ==> SamePage(s, s', d, p)
  {
    hide Pte, Inv, Others, AllocCount;
    GrownOthers(s, s', first, d);
    AllocExact(s, s', first, data, d, low[d], Pages(sz[d]), Pages(n));
    OneMoved(s, s', data, d, sz, low, n, low[d]);
    assert low[d := low[d]] == low;
  }

  lemma Withdrawn(s: Vm, s': Vm, first: nat, data: nat, d: nat, sz: map<nat, nat>, low: map<nat, nat>)
    requires Inv(s, first) && Inv(s', first) && Described(s, data, sz, low) && d in sz && Unwound(s, s', d)
    ensures Others(s, s', d) && Described(s', data, sz, low)
    ensures forall p :: low[d] <= p < Pages(sz[d]) ==> SamePage(s, s', d, p)
  {
    hide Pte, Inv, Others;
    GrownOthers(s, s', first, d);
    UnwoundExact(s, s', first, data, d, low[d], Pages(sz[d]));
    OneMoved(s, s', data, d, sz, low, sz[d], low[d]);
    assert low[d := low[d]] == low && sz[d := sz[d]] == sz;
  }

  /** The pages it takes to grow from size to newsz: those added and the tables missing. */
  ghost function Price(s: Vm, d: nat, size: nat, newsz: nat): int {
    Pages(newsz) - Pages(size) + |TableSpan(Pages(size), Pages(newsz)) - Tables(s.mem, d)|
  }

  lemma Paid(s: Vm, s': Vm, d: nat, size: nat, newsz: nat)
    requires AllocCount(s, s', d, Pages(size), Pages(newsz))
    ensures |s'.free| + Price(s, d, size, newsz) == |s.free|
  {
    hide TableSpan, Tables;
    var span, tables := TableSpan(Pages(size), Pages(newsz)), Tables(s.mem, d);
    assert tables + span == tables + (span - tables) && tables !! span - tables;
  }

  lemma EnoughForNone(s: Vm, d: nat)
    ensures Enough(s, d, 0, 0)
  {
    assert TableSpan(0, 0) - Tables(s.mem, d) == {};
  }

  /** Pages given back from size n on, by deallocuvm. */
  lemma Cut(s: Vm, s': Vm, first: nat, data: nat, d: nat, n: nat, sz: map<nat, nat>, low: map<nat, nat>)
    requires Inv(s, first) && Inv(s', first) && Described(s, data, sz, low) && d in sz && n <= sz[d]
    requires Emptied(s, s', d, Pages(n), Pages(sz[d]))
    ensures Others(s, s', d) && Described(s', data, sz[d := n], low[d := Min(low[d], Pages(n))])
    ensures forall p :: 0 <= p < Pages(n) ==> SamePage(s, s', d, p)
    ensures n == 0 ==> Described(s', data, sz, low[d := Pages(sz[d])])
  {
    hide Pte, Inv, Others, Emptied;
    EmptiedOthers(s, s', first, d, Pages(n), Pages(sz[d]));
    EmptiedExact(s, s', first, data, d, low[d], Pages(n), Pages(sz[d]));
    OneMoved(s, s', data, d, sz, low, n, Min(low[d], Pages(n)));
    if n == 0 {
      NothingLeft(s', data, d, Pages(sz[d]));
      OneMoved(s, s', data, d, sz, low, sz[d], Pages(sz[d]));
      assert sz[d := sz[d]] == sz;
    }
  }

  /** Whether growproc(n) succeeds at size sz. */
  ghost predicate Grows(s: Vm, d: nat, sz: nat, n: int) {
    if n > 0 then sz + n < KERNBASE && Enough(s, d, Pages(sz), Pages(sz + n))
    else if sz + n < 0 then sz > 0
    else n == 0 || sz + n > 0
  }

  /** The first page mapped after growproc(n). */
  ghost function LowAfter(low: nat, sz: nat, n: int): nat {
    if n >= 0 || sz + n < 0 then low else if sz + n == 0 then Pages(sz) else Min(low, Pages(sz + n))
  }

  lemma NoneTaken(s: Vm, s': Vm, d: nat, lo: nat, hi: nat)
    requires Emptied(s, s', d, lo, hi)
    ensures |s'.free| >= |s.free|
  {
    hide PageWalk, Pte;
  }

  /** fork finds a page missing at once or not at all. */
  lemma Missing(s: Vm, data: nat, d: nat, low: nat, hi: nat)
    requires Exact(s, data, d, low, hi)
    ensures FirstMissing(s.mem, d, 0, hi) == if low == 0 then hi else 0
  {
    hide Pte;
    MappedIff(s, data, d, low, hi);
    var m := FirstMissing(s.mem, d, 0, hi);
    assert m > 0 ==> Present(Pte(s.mem, d, 0));
  }

  datatype Call = New | Alloc(d: nat, newsz: nat) | Grow(d: nat, n: int) | Fork(d: nat) | Free(d: nat)

  /** Memory, and the size and first mapped page of each directory. */
  datatype State = State(s: Vm, sz: map<nat, nat>, low: map<nat, nat>)

  /** What a call does with the sizes. It does nothing if it names no directory, or fails. */
  ghost predicate Does(t: State, c: Call, t': State) {
    match c
    case New =>
      if |t.s.free| >= 65 then exists e: nat :: Adds(t, t', e, 0) else Stays(t, t')
    case Alloc(d, n) =>
      if d in t.sz && t.sz[d] <= n < KERNBASE && Enough(t.s, d, Pages(t.sz[d]), Pages(n)) then
        t'.sz == t.sz[d := n] && t'.low == t.low
      else Stays(t, t')
    case Grow(d, n) =>
      if d in t.sz then
        && t'.sz == (if Grows(t.s, d, t.sz[d], n) && t.sz[d] + n > 0 then t.sz[d := t.sz[d] + n] else t.sz)
        && (d in t.low ==> t'.low == t.low[d := LowAfter(t.low[d], t.sz[d], n)])
      else Stays(t, t')
    case Fork(d) =>
      if d in t.sz && |t.s.free| >= 65 + Pages(t.sz[d]) + (Pages(t.sz[d]) + 1023) / 1024 then
        exists e: nat :: Adds(t, t', e, t.sz[d])
      else Stays(t, t')
    case Free(d) =>
      t'.sz == t.sz - {d} && t'.low == t.low - {d}
  }

  ghost predicate Stays(t: State, t': State) { t'.sz == t.sz && t'.low == t.low }

  ghost predicate Adds(t: State, t': State, e: nat, n: nat) {
    e !in t.sz && t'.sz == t.sz[e := n] && t'.low == t.low[e := 0]
  }

  /** The kernel panics in fork, at the first page of a process that has none. */
  predicate Panics(t: State, c: Call) {
    c.Fork? && c.d in t.sz && c.d in t.low && t.low[c.d] > 0 && |t.s.free| >= 65
  }

  /** growproc was told to give all of d back, in one of the first n calls or before. */
  ghost predicate EmptiedBefore(ts: seq<State>, calls: seq<Call>, n: nat, d: nat)
    requires n <= |calls| && n < |ts|
  {
    || (d in ts[0].low && ts[0].low[d] > 0)
    || exists i :: 0 <= i < n && EmptiedBy(ts[i].sz, calls[i], d)
  }

  predicate EmptiedBy(sz: map<nat, nat>, c: Call, d: nat) {
    c.Grow? && c.d == d && d in sz && sz[d] > 0 && sz[d] + c.n == 0
  }

  /** A directory whose low pages are missing had them missing before, or loses them now. */
  lemma LowFrom(data: nat, t: State, c: Call, t': State, d: nat)
    requires Described(t.s, data, t.sz, t.low) && Does(t, c, t') && d in t'.low && t'.low[d] > 0
    ensures (d in t.low && t.low[d] > 0) || EmptiedBy(t.sz, c, d)
  {
    hide Exact, Enough;
  }

  class Spaces {
    const k: Kernel
    var sz: map<nat, nat>          // proc->sz, by page directory
    ghost var low: map<nat, nat>   // the first page that is mapped

    ghost predicate Valid()
      reads this, k
    {
      k.Valid() && Described(k.S(), k.data, sz, low)
    }

    constructor (k: Kernel)
      requires k.Valid() && forall f: nat :: !IsDir(k.S(), f)
      ensures Valid() && this.k == k && sz == map[]
    {
      this.k := k;
      sz, low := map[], map[];
    }

    /** setupkvm, for userinit and exec. */
    method New() returns (d: nat)
      requires Valid()
      modifies this, k
      ensures Valid() && Others(old(k.S()), k.S(), d)
      ensures d != 0 <==> |old(k.free)| >= 65
      ensures d == 0 ==> sz == old(sz) && low == old(low)
      ensures d != 0 ==> d !in old(sz) && sz == old(sz)[d := 0] && low == old(low)[d := 0]
      ensures d != 0 ==> |k.free| + 65 == |old(k.free)|
    {
      hide Inv, Linked, Described, SetUp, Others, RolledBack;
      ghost var s := k.S();
      d := k.Setupkvm();
      if d == 0 {
        NoneMoved(s, k.S(), k.first, k.data, sz, low);
      } else {
        Made(s, k.S(), k.first, d, k.data, sz, low);
        SetUpDone(s, k.S(), d, k.data);
        sz, low := sz[d := 0], low[d := 0];
      }
    }

    /** allocuvm, as exec and growproc call it: it does not find a page mapped that it is
        to add, so it does not panic. */
    method Alloc(d: nat, newsz: nat) returns (r: nat)
      requires Valid() && d in sz
      modifies this, k
      ensures Valid() && Others(old(k.S()), k.S(), d) && low == old(low)
      ensures forall p :: low[d] <= p < Pages(old(sz)[d]) ==> SamePage(old(k.S()), k.S(), d, p)
      ensures newsz >= KERNBASE ==> r == 0 && sz == old(sz)
      ensures newsz < KERNBASE && newsz < old(sz)[d] ==> r == old(sz)[d] && sz == old(sz)
      ensures old(sz)[d] <= newsz < KERNBASE ==>
        if Enough(old(k.S()), d, Pages(old(sz)[d]), Pages(newsz)) then
          r == newsz && sz == old(sz)[d := newsz] && |k.free| + Price(old(k.S()), d, old(sz)[d], newsz) == |old(k.free)|
          && forall p :: Pages(old(sz)[d]) <= p < Pages(newsz) ==> ZeroPage(k.S(), d, p)
        else r == 0 && sz == old(sz)
    {
      hide Inv, Linked, Others, Pte, Enough, Unwound, AllocCount, Grown;
      ghost var s := k.S();
      MappedIff(s, k.data, d, low[d], Pages(sz[d]));
      r := k.Allocuvm(d, sz[d], newsz);
      EnoughForNone(s, d);
      if newsz >= KERNBASE || newsz < sz[d] {
        SameIsOthers(s, k.first, d);
      } else if r == newsz {
        Extended(s, k.S(), k.first, k.data, d, newsz, sz, low);
        Paid(s, k.S(), d, sz[d], newsz);
        sz := sz[d := newsz];
      } else {
        Withdrawn(s, k.S(), k.first, k.data, d, sz, low);
      }
    }

    /** growproc's use of deallocuvm: a result of 0 is taken for a failure. */
    method Shrink(d: nat, newsz: nat) returns (size: nat)
      requires Valid() && d in sz
      modifies this, k
      ensures Valid() && Others(old(k.S()), k.S(), d) && size == Min(old(sz)[d], newsz)
      ensures sz == if size == 0 then old(sz) else old(sz)[d := size]
      ensures newsz >= old(sz)[d] ==> low == old(low) && k.S() == old(k.S())
      ensures newsz < old(sz)[d] ==>
                low == old(low)[d := if newsz == 0 then Pages(old(sz)[d]) else Min(old(low)[d], Pages(newsz))]
      ensures forall p :: low[d] <= p < Pages(size) ==> SamePage(old(k.S()), k.S(), d, p)
      ensures |k.free| >= |old(k.free)|
    {
      hide Inv, Linked, Others, Pte, Emptied, Described;
      DirOf(k.S(), k.data, sz, low, d);
      SameIsOthers(k.S(), k.first, d);
      assert sz[d := sz[d]] == sz;
      ghost var s := k.S();
      size := k.Deallocuvm(d, sz[d], newsz);
      if newsz < sz[d] {
        Cut(s, k.S(), k.first, k.data, d, newsz, sz, low);
        NoneTaken(s, k.S(), d, Pages(newsz), Pages(sz[d]));
        low := low[d := if newsz == 0 then Pages(sz[d]) else Min(low[d], Pages(newsz))];
      }
      if size != 0 {
        sz := sz[d := size];
      }
    }

    /** growproc: 0, or -1 if it failed. Its sum is in 32 bits. */
    method Grow(d: nat, n: int) returns (r: int)
      requires Valid() && d in sz && -0x8000_0000 <= n < 0x8000_0000
      modifies this, k
      ensures Valid() && Others(old(k.S()), k.S(), d) && (r == 0 || r == -1)
      ensures r == 0 <==> Grows(old(k.S()), d, old(sz)[d], n)
      ensures sz == if r == 0 && old(sz)[d] + n > 0 then old(sz)[d := old(sz)[d] + n] else old(sz)
      ensures low == old(low)[d := LowAfter(old(low)[d], old(sz)[d], n)]
      ensures n <= 0 ==> |k.free| >= |old(k.free)|
      ensures forall p :: low[d] <= p < Min(Pages(old(sz)[d]), Pages(sz[d])) ==> SamePage(old(k.S()), k.S(), d, p)
      ensures forall p :: Pages(old(sz)[d]) <= p < Pages(sz[d]) ==> ZeroPage(k.S(), d, p)
    {
      hide Inv, Linked, Others, Pte, Enough, Described, ZeroPage, Price;
      DirOf(k.S(), k.data, sz, low, d);
      assert low[d := low[d]] == low && sz[d := sz[d]] == sz;
      SameIsOthers(k.S(), k.first, d);
      if n > 0 {
        var size := Alloc(d, sz[d] + n);
        return if size == 0 then -1 else 0;
      }
      if n < 0 {
        var newsz := (sz[d] + n) % 0x1_0000_0000;
        var size := Shrink(d, newsz);
        return if size == 0 then -1 else 0;
      }
      return 0;
    }

    /** fork's use of copyuvm: with the whole space mapped it does not panic. */
    method Fork(d: nat) returns (ok: bool, e: nat)
      requires Valid() && d in sz
      modifies this, k
      ensures var n := Pages(old(sz)[d]);
              && (ok <==> old(low)[d] == 0 || |old(k.free)| < 65)
              && (ok ==> Valid() && Others(old(k.S()), k.S(), e))
              && (ok ==> (e != 0 <==> |old(k.free)| >= 65 + n + (n + 1023) / 1024))
      ensures ok && e == 0 ==> sz == old(sz) && low == old(low)
      ensures ok && e != 0 ==>
        && e !in old(sz) && sz == old(sz)[e := old(sz)[d]] && low == old(low)[e := 0]
        && forall p :: 0 <= p < Pages(sz[d]) ==> CopyOf(old(k.S()), k.S(), d, e, p)
    {
      hide Inv, Linked, Others, Pte, Grown, RolledBack;
      ghost var s := k.S();
      Missing(s, k.data, d, low[d], Pages(sz[d]));
      ok, e := k.Copyuvm(d, sz[d]);
      if !ok {
        return;
      }
      if e == 0 {
        NoneMoved(s, k.S(), k.first, k.data, sz, low);
      } else {
        Cloned(s, k.S(), k.first, d, e, k.data, sz, low);
        sz, low := sz[e := sz[d]], low[e := 0];
      }
    }

    /** freevm, for wait and exec. */
    method Free(d: nat)
      requires Valid() && d in sz
      modifies this, k
      ensures Valid() && Others(old(k.S()), k.S(), d)
      ensures sz == old(sz) - {d} && low == old(low) - {d}
    {
      hide Inv, Linked, Others, Freed;
      ghost var s := k.S();
      k.Freevm(d);
      FreedOthers(s, k.S(), k.first, d);
      OneGone(s, k.S(), k.data, d, sz, low);
      sz, low := sz - {d}, low - {d};
    }

    ghost function Now(): State reads this, k { State(k.S(), sz, low) }

    /** One call; whether the kernel goes on. */
    method Step(c: Call) returns (ok: bool)
      requires Valid() && (c.Grow? ==> -0x8000_0000 <= c.n < 0x8000_0000)
      modifies this, k
      ensures ok <==> !Panics(old(Now()), c)
      ensures ok ==> Valid() && Does(old(Now()), c, Now())
    {
      hide Inv, Linked, Others, Enough, SamePage, ZeroPage, CopyOf, Exact;
      ok := true;
      ghost var t := Now();
      match c
      case New =>
        var e := New();
        assert e != 0 ==> Adds(t, Now(), e, 0);
      case Alloc(d, n) =>
        if d in sz { var _ := Alloc(d, n); }
      case Grow(d, n) =>
        if d in sz { var _ := Grow(d, n); }
      case Fork(d) =>
        if d in sz {
          var e;
          ok, e := Fork(d);
          assert ok && e != 0 ==> Adds(t, Now(), e, t.sz[d]);
        }
      case Free(d) =>
        if d in sz { Free(d); } else { assert sz - {d} == sz && low - {d} == low; }
    }

    /** Any calls one after the other, up to one that panics. */
    method Run(calls: seq<Call>) returns (done: nat, ghost ts: seq<State>)
      requires Valid() && forall i :: 0 <= i < |calls| && calls[i].Grow? ==> -0x8000_0000 <= calls[i].n < 0x8000_0000
      modifies this, k
      ensures done <= |calls| && |ts| == done + 1 && ts[0] == old(Now())
      ensures done == |calls| ==> Valid() && ts[done] == Now()
      ensures forall i :: 0 <= i <= done ==> Described(ts[i].s, k.data, ts[i].sz, ts[i].low)
      ensures forall i :: 0 <= i < done ==> !Panics(ts[i], calls[i]) && Does(ts[i], calls[i], ts[i + 1])
      ensures done < |calls| ==> Panics(ts[done], calls[done]) && EmptiedBefore(ts, calls, done, calls[done].d)
    {
      hide Described, Inv, Linked, Does;
      done, ts := 0, [Now()];
      while done < |calls|
        invariant done <= |calls| && |ts| == done + 1 && ts[0] == old(Now()) && ts[done] == Now()
        invariant Valid() && forall i :: 0 <= i <= done ==> Described(ts[i].s, k.data, ts[i].sz, ts[i].low)
        invariant forall i :: 0 <= i < done ==> !Panics(ts[i], calls[i]) && Does(ts[i], calls[i], ts[i + 1])
        invariant forall d: nat :: d in low && low[d] > 0 ==> EmptiedBefore(ts, calls, done, d)
      {
        var ok := Step(calls[done]);
        if !ok {
          return;
        }
        forall d: nat | d in low && low[d] > 0
          ensures EmptiedBefore(ts, calls, done, d) || EmptiedBy(ts[done].sz, calls[done], d)
        {
          LowFrom(k.data, ts[done], calls[done], Now(), d);
        }
        ts := ts + [Now()];
        done := done + 1;
      }
    }
  }

  lemma NoDirs(s: Vm, first: nat)
    requires Inv(s, first) && forall f :: first <= f < NFRAMES ==> IsFree(s, f)
    ensures forall f: nat :: !IsDir(s, f)
  {
    forall f: nat ensures !IsDir(s, f) {
      if f in s.use { assert IsFree(s, f); }
    }
  }

  lemma FirstSpan()
    ensures TableSpan(0, 1) == {0}
  {
  }

  lemma OnePrice(s: Vm, d: nat)
    ensures 1 <= Price(s, d, 0, 0x1000) <= 2 && (|s.free| >= 2 ==> Enough(s, d, 0, 1))
  {
    hide TableSpan, Tables;
    FirstSpan();
    assert {0} - Tables(s.mem, d) == {} || {0} - Tables(s.mem, d) == {0};
  }

  /** A process with one page gives it back with growproc(-4096), and its next fork panics. */
  method ForkPanics(boot: seq<Page>) returns (ok: bool)
    requires Shaped(boot)
    ensures !ok
  {
    hide Inv, Linked, Described, Others, SamePage, ZeroPage, Enough, Price, TableSpan, Tables;
    var k := new Kernel(boot, 0x400, 0x200);
    NoDirs(k.S(), 0x400);
    var spaces := new Spaces(k);
    var d := spaces.New();
    OnePrice(k.S(), d);
    var size := spaces.Alloc(d, 0x1000);
    var r := spaces.Grow(d, -0x1000);
    var e;
    ok, e := spaces.Fork(d);
  }
}
