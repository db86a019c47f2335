/** What the redo log of log.c writes to disk, write by write, and why a crash
    after any of those writes is harmless. */
module LogSpec {
  import opened Blocks
  import opened BufferCache
  import opened Params

  /** Where the log lives, a header block and size - 1 log blocks, and how the
      header block lists the blocks of a transaction. */
  datatype Area = Area(start: nat, size: nat, listed: Block -> seq<nat>, header: (Block, seq<nat>) -> Block)

  predicate InLog(a: Area, b: nat) {
    a.start <= b < a.start + a.size
  }

  ghost predicate Numbers(bs: seq<nat>) {
    |bs| <= LOGSIZE && forall i :: 0 <= i < |bs| ==> bs[i] < UINT
  }

  /** A header written over any block lists what was written. */
  ghost predicate AreaOk(a: Area, n: nat) {
    && 0 < a.size && a.start + a.size <= n <= UINT
    && (forall h, bs {:trigger a.header(h, bs)} :: Numbers(bs) ==> a.listed(a.header(h, bs)) == bs)
  }

  // ---- transactions and their disk writes ----

  /** The blocks of one transaction, in log order, with their new contents. */
  datatype Txn = Txn(blocks: seq<nat>, data: seq<Block>)

  ghost predicate TxnOk(a: Area, n: nat, t: Txn) {
    && |t.data| == |t.blocks| <= LOGSIZE && |t.blocks| < a.size
    && (forall i :: 0 <= i < |t.blocks| ==> t.blocks[i] < n && !InLog(a, t.blocks[i]))
    && (forall i, j :: 0 <= i < j < |t.blocks| ==> t.blocks[i] != t.blocks[j])
  }

  /** The disk after the first k of the writes ws. */
  ghost function Apply(d: seq<Block>, ws: seq<Write>, k: nat): (r: seq<Block>)
    requires k <= |ws|
    ensures |r| == |d|
  {
    if k == 0 then d
    else
      var r := Apply(d, ws, k - 1);
      if ws[k-1].blockno < |r| then r[ws[k-1].blockno := ws[k-1].data] else r
  }

  lemma {:induction false} ApplyAgree(d: seq<Block>, us: seq<Write>, vs: seq<Write>, k: nat)
    requires k <= |us| && k <= |vs| && forall i :: 0 <= i < k ==> us[i] == vs[i]
    ensures Apply(d, us, k) == Apply(d, vs, k)
  {
    if k > 0 { ApplyAgree(d, us, vs, k - 1); }
  }

  lemma {:induction false} ApplyConcat(d: seq<Block>, us: seq<Write>, vs: seq<Write>, j: nat)
    requires j <= |vs|
    ensures Apply(d, us + vs, |us| + j) == Apply(Apply(d, us, |us|), vs, j)
  {
    if j == 0 {
      ApplyAgree(d, us + vs, us, |us|);
    } else {
      ApplyConcat(d, us, vs, j - 1);
    }
  }

  lemma {:induction false} ApplyMiss(d: seq<Block>, ws: seq<Write>, k: nat, b: nat)
    requires k <= |ws| && b < |d| && forall i :: 0 <= i < k ==> ws[i].blockno != b
    ensures Apply(d, ws, k)[b] == d[b]
  {
    if k > 0 { ApplyMiss(d, ws, k - 1, b); }
  }

  /** Of writes to pairwise different blocks, each lands. */
  lemma {:induction false} ApplyHit(d: seq<Block>, ws: seq<Write>, k: nat, i: nat)
    requires i < k <= |ws| && ws[i].blockno < |d|
    requires forall j :: 0 <= j < k && j != i ==> ws[j].blockno != ws[i].blockno
    ensures Apply(d, ws, k)[ws[i].blockno] == ws[i].data
  {
    if i < k - 1 { ApplyHit(d, ws, k - 1, i); }
  }

  /** write_log. */
  ghost function LogWrites(a: Area, t: Txn): seq<Write>
    requires |t.data| == |t.blocks|
  {
    seq(|t.blocks|, i requires 0 <= i < |t.blocks| => Write(a.start + i + 1, t.data[i]))
  }

  /** install_trans, reading the log blocks of disk d. */
  ghost function InstallWrites(a: Area, d: seq<Block>, bs: seq<nat>): (ws: seq<Write>)
    requires a.start + |bs| < |d|
    ensures |ws| == |bs|
  {
    seq(|bs|, i requires 0 <= i < |bs| => Write(bs[i], d[a.start + i + 1]))
  }

  /** write_head. */
  ghost function HeadWrite(a: Area, h: Block, bs: seq<nat>): Write
    requires Numbers(bs)
  {
    Write(a.start, a.header(h, bs))
  }

  /** commit's writes: log blocks, header, home blocks, cleared header. */
  ghost function CommitTrace(a: Area, d: seq<Block>, t: Txn): seq<Write>
    requires AreaOk(a, |d|) && TxnOk(a, |d|, t)
  {
    if |t.blocks| == 0 then [] else
    var h := a.header(d[a.start], t.blocks);
    LogWrites(a, t) + [HeadWrite(a, d[a.start], t.blocks)]
      + HomeWrites(t)
      + [HeadWrite(a, h, [])]
  }

  /** The header is one recover_from_log can follow. */
  ghost predicate Recoverable(a: Area, d: seq<Block>) {
    && AreaOk(a, |d|)
    && |a.listed(d[a.start])| <= LOGSIZE && |a.listed(d[a.start])| < a.size
    && (forall i :: 0 <= i < |a.listed(d[a.start])| ==> a.listed(d[a.start])[i] < |d|)
  }

  /** recover_from_log's writes, decided by the disk alone. */
  ghost function RecoverTrace(a: Area, d: seq<Block>): seq<Write>
    requires Recoverable(a, d)
  {
    InstallWrites(a, d, a.listed(d[a.start])) + [HeadWrite(a, d[a.start], [])]
  }

  // ---- what a disk stands for ----

  /** Block contents outside the log. */
  ghost predicate HomeIs(a: Area, d: seq<Block>, home: seq<Block>) {
    |d| == |home| && forall b :: 0 <= b < |d| && !InLog(a, b) ==> d[b] == home[b]
  }

  /** No transaction in the log: the home blocks are the contents. */
  ghost predicate Settled(a: Area, d: seq<Block>, home: seq<Block>) {
    AreaOk(a, |d|) && a.listed(d[a.start]) == [] && HomeIs(a, d, home)
  }

  /** The log blocks hold the contents of the home blocks bs, whatever those
      hold; every other home block holds its own contents. */
  ghost predicate Logged(a: Area, d: seq<Block>, home: seq<Block>, bs: seq<nat>) {
    && |d| == |home| && |bs| < a.size && a.start + a.size <= |d|
    && (forall i, j :: 0 <= i < j < |bs| ==> bs[i] != bs[j])
    && (forall i :: 0 <= i < |bs| ==> bs[i] < |d| && !InLog(a, bs[i]))
    && (forall i :: 0 <= i < |bs| ==> d[a.start + i + 1] == home[bs[i]])
    && (forall b {:trigger InLog(a, b)} :: 0 <= b < |d| && !InLog(a, b) && b !in bs ==> d[b] == home[b])
  }

  /** A committed transaction in the log, not yet cleared from it. */
  ghost predicate Committed(a: Area, d: seq<Block>, home: seq<Block>) {
    Recoverable(a, d) && Logged(a, d, home, a.listed(d[a.start]))
  }

  ghost function Updated(home: seq<Block>, t: Txn): (r: seq<Block>)
    requires |t.data| == |t.blocks|
    ensures |r| == |home|
  {
    Apply(home, HomeWrites(t), |t.blocks|)
  }

  lemma SettledIsCommitted(a: Area, d: seq<Block>, home: seq<Block>)
    requires Settled(a, d, home)
    ensures Committed(a, d, home)
  {
  }

  /** Installing any part of the logged blocks changes nothing the log holds. */
  lemma InstallPrefix(a: Area, d: seq<Block>, home: seq<Block>, bs: seq<nat>, j: nat)
    requires Logged(a, d, home, bs) && j <= |bs|
    ensures var r := Apply(d, InstallWrites(a, d, bs), j);
            && Logged(a, r, home, bs)
            && (forall b :: 0 <= b < |d| && InLog(a, b) ==> r[b] == d[b])
            && (j == |bs| ==> HomeIs(a, r, home))
  {
    hide Apply, InstallWrites;
    var r := Apply(d, InstallWrites(a, d, bs), j);
    forall b | 0 <= b < |d| && (InLog(a, b) || b !in bs) ensures r[b] == d[b] { InstallMiss(a, d, home, bs, j, b); }
    if j == |bs| {
      forall i | 0 <= i < |bs| ensures r[bs[i]] == home[bs[i]] { InstallHit(a, d, home, bs, i); }
      InstalledHome(a, d, r, home, bs);
    }
  }

  lemma InstallMiss(a: Area, d: seq<Block>, home: seq<Block>, bs: seq<nat>, j: nat, b: nat)
    requires Logged(a, d, home, bs) && j <= |bs| && b < |d| && (InLog(a, b) || b !in bs)
    ensures Apply(d, InstallWrites(a, d, bs), j)[b] == d[b]
  {
    ApplyMiss(d, InstallWrites(a, d, bs), j, b);
  }

  lemma InstallHit(a: Area, d: seq<Block>, home: seq<Block>, bs: seq<nat>, i: nat)
    requires Logged(a, d, home, bs) && i < |bs|
    ensures Apply(d, InstallWrites(a, d, bs), |bs|)[bs[i]] == home[bs[i]]
  {
    ApplyHit(d, InstallWrites(a, d, bs), |bs|, i);
  }

  lemma InstalledHome(a: Area, d: seq<Block>, r: seq<Block>, home: seq<Block>, bs: seq<nat>)
    requires Logged(a, d, home, bs) && |r| == |d| && forall i :: 0 <= i < |bs| ==> r[bs[i]] == home[bs[i]]
    requires forall b :: 0 <= b < |d| && b !in bs ==> r[b] == d[b]
    ensures HomeIs(a, r, home)
  {
    forall b | 0 <= b < |d| && !InLog(a, b) ensures r[b] == home[b] {
      if b in bs { var i :| 0 <= i < |bs| && bs[i] == b; }
    }
  }

  /** install_trans and then the cleared header are a whole recovery. */
  lemma InstallThenClear(a: Area, d: seq<Block>, home: seq<Block>)
    requires Committed(a, d, home)
    ensures var bs := a.listed(d[a.start]);
            var d1 := Apply(d, InstallWrites(a, d, bs), |bs|);
            && d1[a.start] == d[a.start]
            && Apply(d, RecoverTrace(a, d), |bs| + 1) == d1[a.start := a.header(d[a.start], [])]
            && Settled(a, Apply(d, RecoverTrace(a, d), |bs| + 1), home)
  {
    var bs := a.listed(d[a.start]);
    InstallPrefix(a, d, home, bs, |bs|);
    ApplyAgree(d, RecoverTrace(a, d), InstallWrites(a, d, bs), |bs|);
    ClearHead(a, Apply(d, InstallWrites(a, d, bs), |bs|), home, d[a.start]);
  }

  /** A completed recovery: settled, with the same contents. */
  lemma RecoverWhole(a: Area, d: seq<Block>, home: seq<Block>)
    requires Committed(a, d, home)
    ensures Settled(a, Apply(d, RecoverTrace(a, d), |RecoverTrace(a, d)|), home)
  {
    InstallThenClear(a, d, home);
  }

  /** A crash after j of recovery's writes: still committed. */
  lemma RecoverPrefix(a: Area, d: seq<Block>, home: seq<Block>, j: nat)
    requires Committed(a, d, home) && j <= |RecoverTrace(a, d)|
    ensures Committed(a, Apply(d, RecoverTrace(a, d), j), home)
  {
    var tr, bs := RecoverTrace(a, d), a.listed(d[a.start]);
    if j < |tr| {
      InstallPrefix(a, d, home, bs, j);
      ApplyAgree(d, tr, InstallWrites(a, d, bs), j);
    } else {
      InstallThenClear(a, d, home);
      SettledIsCommitted(a, Apply(d, tr, j), home);
    }
  }

  lemma ClearHead(a: Area, d: seq<Block>, home: seq<Block>, h: Block)
    requires AreaOk(a, |d|) && HomeIs(a, d, home)
    ensures Settled(a, d[a.start := a.header(h, [])], home)
  {
    assert Numbers([]);
  }

  /** Writing the log blocks touches neither the header nor a home block. */
  lemma LogPrefix(a: Area, d: seq<Block>, home: seq<Block>, t: Txn, k: nat)
    requires AreaOk(a, |d|) && HomeIs(a, d, home) && TxnOk(a, |d|, t) && k <= |t.blocks|
    ensures var r := Apply(d, LogWrites(a, t), k);
            HomeIs(a, r, home) && r[a.start] == d[a.start] && forall i :: 0 <= i < k ==> r[a.start + i + 1] == t.data[i]
  {
    var ws := LogWrites(a, t);
    forall b | 0 <= b < |d| && !(a.start < b < a.start + a.size)
      ensures Apply(d, ws, k)[b] == d[b]
    {
      ApplyMiss(d, ws, k, b);
    }
    forall i | 0 <= i < k ensures Apply(d, ws, k)[a.start + i + 1] == t.data[i] { ApplyHit(d, ws, k, i); }
  }

  ghost function HomeWrites(t: Txn): seq<Write>
    requires |t.data| == |t.blocks|
  {
    seq(|t.blocks|, i requires 0 <= i < |t.blocks| => Write(t.blocks[i], t.data[i]))
  }

  lemma UpdatedAt(a: Area, home: seq<Block>, t: Txn)
    requires TxnOk(a, |home|, t)
    ensures forall i :: 0 <= i < |t.blocks| ==> Updated(home, t)[t.blocks[i]] == t.data[i]
    ensures forall b :: 0 <= b < |home| && b !in t.blocks ==> Updated(home, t)[b] == home[b]
  {
    var ws := HomeWrites(t);
    forall i | 0 <= i < |t.blocks| ensures Updated(home, t)[t.blocks[i]] == t.data[i] { ApplyHit(home, ws, |ws|, i); }
    forall b | 0 <= b < |home| && b !in t.blocks
      ensures Updated(home, t)[b] == home[b]
    {
      ApplyMiss(home, ws, |ws|, b);
    }
  }

  /** The disk at the commit point: log blocks and header written. */
  ghost function Sealed(a: Area, d: seq<Block>, t: Txn): (r: seq<Block>)
    requires AreaOk(a, |d|) && TxnOk(a, |d|, t)
    ensures |r| == |d|
  {
    Apply(d, LogWrites(a, t), |t.blocks|)[a.start := a.header(d[a.start], t.blocks)]
  }

  /** Once the header is down, the disk stands for the updated contents, and
      what commit still has to write is exactly what recovery would write. */
  lemma CommitPoint(a: Area, d: seq<Block>, home: seq<Block>, t: Txn)
    requires Settled(a, d, home) && TxnOk(a, |d|, t)
    ensures Committed(a, Sealed(a, d, t), Updated(home, t))
    ensures a.listed(Sealed(a, d, t)[a.start]) == t.blocks
    ensures InstallWrites(a, Sealed(a, d, t), t.blocks) == HomeWrites(t)
  {
    assert Numbers(t.blocks);
    LoggedAfter(a, d, home, t, a.header(d[a.start], t.blocks));
  }

  lemma LoggedAfter(a: Area, d: seq<Block>, home: seq<Block>, t: Txn, h: Block)
    requires AreaOk(a, |d|) && HomeIs(a, d, home) && TxnOk(a, |d|, t)
    ensures var d2 := Apply(d, LogWrites(a, t), |t.blocks|)[a.start := h];
            Logged(a, d2, Updated(home, t), t.blocks) && InstallWrites(a, d2, t.blocks) == HomeWrites(t)
  {
    LogPrefix(a, d, home, t, |t.blocks|);
    UpdatedAt(a, home, t);
    LoggedBy(a, Apply(d, LogWrites(a, t), |t.blocks|), home, Updated(home, t), t, h);
  }

  lemma LoggedBy(a: Area, d1: seq<Block>, home: seq<Block>, upd: seq<Block>, t: Txn, h: Block)
    requires AreaOk(a, |d1|) && HomeIs(a, d1, home) && TxnOk(a, |d1|, t) && |upd| == |home|
    requires forall i :: 0 <= i < |t.blocks| ==> d1[a.start + i + 1] == t.data[i] && upd[t.blocks[i]] == t.data[i]
    requires forall b :: 0 <= b < |home| && b !in t.blocks ==> upd[b] == home[b]
    ensures Logged(a, d1[a.start := h], upd, t.blocks)
    ensures InstallWrites(a, d1[a.start := h], t.blocks) == HomeWrites(t)
  {
  }

  /** Before the header write nothing has happened... */
  lemma CommitPrefixOld(a: Area, d: seq<Block>, home: seq<Block>, t: Txn, k: nat)
    requires Settled(a, d, home) && TxnOk(a, |d|, t) && k <= |t.blocks|
    ensures k <= |CommitTrace(a, d, t)|
    ensures Settled(a, Apply(d, CommitTrace(a, d, t), k), home)
  {
    if |t.blocks| > 0 {
      LogPrefix(a, d, home, t, k);
      ApplyAgree(d, CommitTrace(a, d, t), LogWrites(a, t), k);
    }
  }

  /** commit is write_log and write_head, then what a recovery would do. */
  lemma CommitSplit(a: Area, d: seq<Block>, home: seq<Block>, t: Txn)
    requires Settled(a, d, home) && TxnOk(a, |d|, t) && |t.blocks| > 0
    ensures Committed(a, Sealed(a, d, t), Updated(home, t)) && a.listed(Sealed(a, d, t)[a.start]) == t.blocks
    ensures CommitTrace(a, d, t) == SealWrites(a, d, t) + RecoverTrace(a, Sealed(a, d, t))
    ensures |RecoverTrace(a, Sealed(a, d, t))| == |t.blocks| + 1
  {
    CommitPoint(a, d, home, t);
    assert Sealed(a, d, t)[a.start] == a.header(d[a.start], t.blocks);
  }

  ghost function SealWrites(a: Area, d: seq<Block>, t: Txn): seq<Write>
    requires AreaOk(a, |d|) && TxnOk(a, |d|, t)
  {
    LogWrites(a, t) + [HeadWrite(a, d[a.start], t.blocks)]
  }

  lemma ApplySeal(a: Area, d: seq<Block>, t: Txn)
    requires AreaOk(a, |d|) && TxnOk(a, |d|, t)
    ensures Apply(d, SealWrites(a, d, t), |t.blocks| + 1) == Sealed(a, d, t)
  {
    ApplyAgree(d, SealWrites(a, d, t), LogWrites(a, t), |t.blocks|);
  }

  /** From the header write on, commit goes on like a recovery. */
  lemma CommitTail(a: Area, d: seq<Block>, home: seq<Block>, t: Txn, j: nat)
    requires Settled(a, d, home) && TxnOk(a, |d|, t) && |t.blocks| > 0 && j <= |t.blocks| + 1
    ensures Committed(a, Sealed(a, d, t), Updated(home, t))
    ensures |CommitTrace(a, d, t)| == 2 * |t.blocks| + 2 && |RecoverTrace(a, Sealed(a, d, t))| == |t.blocks| + 1
    ensures var d1 := Sealed(a, d, t);
            Apply(d, CommitTrace(a, d, t), |t.blocks| + 1 + j) == Apply(d1, RecoverTrace(a, d1), j)
  {
    hide Apply, RecoverTrace, Logged, HomeIs, Sealed, Updated, AreaOk;
    CommitSplit(a, d, home, t);
    ApplySeal(a, d, t);
    ApplyConcat(d, SealWrites(a, d, t), RecoverTrace(a, Sealed(a, d, t)), j);
  }

  /** ... and from it on, everything has. */
  lemma CommitPrefixNew(a: Area, d: seq<Block>, home: seq<Block>, t: Txn, k: nat)
    requires Settled(a, d, home) && TxnOk(a, |d|, t) && |t.blocks| < k <= |CommitTrace(a, d, t)|
    ensures Committed(a, Apply(d, CommitTrace(a, d, t), k), Updated(home, t))
  {
    hide Apply, RecoverTrace, Logged, HomeIs, Sealed, Updated, AreaOk;
    CommitTail(a, d, home, t, k - |t.blocks| - 1);
    RecoverPrefix(a, Sealed(a, d, t), Updated(home, t), k - |t.blocks| - 1);
  }

  lemma CommitNothing(a: Area, d: seq<Block>, home: seq<Block>, t: Txn)
    requires Settled(a, d, home) && TxnOk(a, |d|, t) && |t.blocks| == 0
    ensures Settled(a, Apply(d, CommitTrace(a, d, t), |CommitTrace(a, d, t)|), Updated(home, t))
  {
  }

  lemma CommitSettles(a: Area, d: seq<Block>, home: seq<Block>, t: Txn)
    requires Settled(a, d, home) && TxnOk(a, |d|, t)
    ensures Settled(a, Apply(d, CommitTrace(a, d, t), |CommitTrace(a, d, t)|), Updated(home, t))
  {
    hide Apply, RecoverTrace, CommitTrace, Committed, HomeIs, Sealed, Updated, AreaOk;
    if |t.blocks| == 0 {
      CommitNothing(a, d, home, t);
    } else {
      CommitTail(a, d, home, t, |t.blocks| + 1);
      RecoverWhole(a, Sealed(a, d, t), Updated(home, t));
    }
  }

  // ---- crash atomicity over whole runs ----

  /** Any number of reboots whose recovery is cut short after some of its
      writes, then one that completes. */
  ghost function Reboots(a: Area, d: seq<Block>, crashes: seq<nat>): (r: seq<Block>)
    ensures |r| == |d|
    decreases |crashes|
  {
    if !Recoverable(a, d) then d
    else
      var tr := RecoverTrace(a, d);
      if |crashes| == 0 then Apply(d, tr, |tr|)
      else Reboots(a, Apply(d, tr, Cut(crashes[0], |tr|)), crashes[1..])
  }

  function Cut(k: nat, n: nat): nat {
    if k <= n then k else n
  }

  lemma {:induction false} RebootsSettle(a: Area, d: seq<Block>, home: seq<Block>, crashes: seq<nat>)
    requires Committed(a, d, home)
    ensures Settled(a, Reboots(a, d, crashes), home)
    decreases |crashes|
  {
    var tr := RecoverTrace(a, d);
    if |crashes| == 0 {
      InstallThenClear(a, d, home);
    } else {
      var k := Cut(crashes[0], |tr|);
      RecoverPrefix(a, d, home, k);
      RebootsSettle(a, Apply(d, tr, k), home, crashes[1..]);
    }
  }

  /** Crash atomicity: all old or all new, decided solely by whether the first
      header write reached the disk. */
  lemma CrashAtomicity(a: Area, d: seq<Block>, home: seq<Block>, t: Txn, k: nat, crashes: seq<nat>)
    requires Settled(a, d, home) && TxnOk(a, |d|, t) && k <= |CommitTrace(a, d, t)|
    ensures Settled(a, Reboots(a, Apply(d, CommitTrace(a, d, t), k), crashes),
                    if k <= |t.blocks| then home else Updated(home, t))
  {
    var d1 := Apply(d, CommitTrace(a, d, t), k);
    if k <= |t.blocks| {
      CommitPrefixOld(a, d, home, t, k);
      SettledIsCommitted(a, d1, home);
      RebootsSettle(a, d1, home, crashes);
    } else {
      CommitPrefixNew(a, d, home, t, k);
      RebootsSettle(a, d1, Updated(home, t), crashes);
    }
  }

  /** One boot-to-boot event in the life of a disk. */
  datatype Event =
    | Commit(t: Txn)                                // a commit that ran to its end
    | Crash(t: Txn, k: nat, crashes: seq<nat>)      // a commit cut after k writes, then reboots

  ghost predicate EventOk(a: Area, n: nat, e: Event) {
    TxnOk(a, n, e.t)
  }

  /** The disk after the event and the reboots it calls for. */
  ghost function After(a: Area, d: seq<Block>, e: Event): (r: seq<Block>)
    requires AreaOk(a, |d|) && EventOk(a, |d|, e)
    ensures |r| == |d|
  {
    var tr := CommitTrace(a, d, e.t);
    match e
    case Commit(_) => Apply(d, tr, |tr|)
    case Crash(_, k, crashes) => Reboots(a, Apply(d, tr, Cut(k, |tr|)), crashes)
  }

  /** The contents after the event: updated if and only if the header write,
      number |t.blocks| + 1, was made. */
  ghost function Effect(home: seq<Block>, e: Event): (r: seq<Block>)
    requires |e.t.data| == |e.t.blocks|
    ensures |r| == |home|
  {
    if e.Crash? && e.k <= |e.t.blocks| then home else Updated(home, e.t)
  }

  lemma EventEffect(a: Area, d: seq<Block>, home: seq<Block>, e: Event)
    requires Settled(a, d, home) && EventOk(a, |d|, e)
    ensures Settled(a, After(a, d, e), Effect(home, e))
  {
    match e {
      case Commit(t) =>
        CommitSettles(a, d, home, t);
      case Crash(t, k, crashes) =>
        var n := |CommitTrace(a, d, t)|;
        CrashAtomicity(a, d, home, t, Cut(k, n), crashes);
        if |t.blocks| == 0 { assert Updated(home, t) == home; }
    }
  }

  ghost function Run(a: Area, d: seq<Block>, es: seq<Event>): (r: seq<Block>)
    requires AreaOk(a, |d|) && forall i :: 0 <= i < |es| ==> EventOk(a, |d|, es[i])
    ensures |r| == |d|
  {
    if |es| == 0 then d else After(a, Run(a, d, es[..|es|-1]), es[|es|-1])
  }

  ghost function Durable(home: seq<Block>, es: seq<Event>): (r: seq<Block>)
    requires forall i :: 0 <= i < |es| ==> |es[i].t.data| == |es[i].t.blocks|
    ensures |r| == |home|
  {
    if |es| == 0 then home else Effect(Durable(home, es[..|es|-1]), es[|es|-1])
  }

  /** Over any history of commits and crashes, after every reboot the home
      blocks hold exactly the durable transactions, applied in order. */
  lemma {:induction false} RunIsDurable(a: Area, d: seq<Block>, home: seq<Block>, es: seq<Event>)
    requires Settled(a, d, home) && forall i :: 0 <= i < |es| ==> EventOk(a, |d|, es[i])
    ensures forall i :: 0 <= i < |es| ==> |es[i].t.data| == |es[i].t.blocks|
    ensures Settled(a, Run(a, d, es), Durable(home, es))
    decreases |es|
  {
    if |es| > 0 {
      var n := |es| - 1;
      RunIsDurable(a, d, home, es[..n]);
      EventEffect(a, Run(a, d, es[..n]), Durable(home, es[..n]), es[n]);
    }
  }
}
