/** log.c over the buffer cache: every method's disk writes, in order, are the
    ones LogSpec describes, so LogSpec's crash theorems hold of this code. */
module Log {
  import opened Blocks
  import opened LruList
  import opened BufferCache
  import opened LogSpec
  import opened Params
  import opened Sets

  // ---- the header block ----

  /** read_head: the block numbers the header lists. */
  function Listed(h: Block): (bs: seq<nat>) {
    seq(Word(h, 0), i requires 0 <= i < Word(h, 0) => if i + 1 < WORDS then Word(h, i + 1) else 0)
  }

  /** The header block after write_head's loop stored its first k entries. */
  ghost function PutListed(h: Block, bs: seq<nat>, k: nat): Block
    requires Numbers(bs) && k <= |bs|
  {
    if k == 0 then PutWord(h, 0, |bs|) else PutWord(PutListed(h, bs, k - 1), k, bs[k - 1])
  }

  ghost function Header(h: Block, bs: seq<nat>): Block {
    if Numbers(bs) then PutListed(h, bs, |bs|) else h
  }

  lemma {:induction false} PutListedWords(h: Block, bs: seq<nat>, k: nat, i: nat)
    requires Numbers(bs) && k <= |bs| && i <= k
    ensures Word(PutListed(h, bs, k), i) == if i == 0 then |bs| else bs[i - 1]
  {
    if k == 0 {
      WordOfPutWord(h, 0, |bs|, i);
    } else {
      WordOfPutWord(PutListed(h, bs, k - 1), k, bs[k - 1], i);
      if i < k { PutListedWords(h, bs, k - 1, i); }
    }
  }

  /** What write_head writes is what read_head reads back. */
  lemma HeaderRoundTrip(h: Block, bs: seq<nat>)
    requires Numbers(bs)
    ensures Listed(Header(h, bs)) == bs
  {
    PutListedWords(h, bs, |bs|, 0);
    forall i | 0 <= i < |bs| ensures Word(Header(h, bs), i + 1) == bs[i] { PutListedWords(h, bs, |bs|, i + 1); }
  }

  /** Where write_head puts it: the count first, then the block numbers, as ints. */
  lemma HeaderLayout(h: Block, bs: seq<nat>)
    requires Numbers(bs)
    ensures Quad(Header(h, bs), 0) == |bs| && forall i :: 0 <= i < |bs| ==> Quad(Header(h, bs), 4 + 4 * i) == bs[i]
  {
    hide Word, Quad, PutListed;
    WordIsQuad(Header(h, bs), 0);
    PutListedWords(h, bs, |bs|, 0);
    forall i | 0 <= i < |bs| ensures Quad(Header(h, bs), 4 + 4 * i) == bs[i] {
      PutListedWords(h, bs, |bs|, i + 1);
      WordIsQuad(Header(h, bs), i + 1);
    }
  }

  ghost predicate Xv6Format(a: Area) {
    && (forall h :: a.listed(h) == Listed(h))
    && (forall h, bs :: a.header(h, bs) == Header(h, bs))
  }

  // ---- pinned buffers ----

  /** The blocks with a dirty buffer. */
  ghost function DirtySet(buf: seq<Buf>): set<nat> {
    set i | 0 <= i < |buf| && buf[i].dirty :: buf[i].blockno
  }

  ghost function DirtyBufs(buf: seq<Buf>): set<int> {
    set i | 0 <= i < |buf| && buf[i].dirty
  }

  ghost predicate Idle(buf: seq<Buf>) {
    forall i :: 0 <= i < |buf| ==> buf[i].refcnt == 0 && !buf[i].locked
  }

  /** A dirty block has one dirty buffer. */
  lemma DirtyCount(buf: seq<Buf>, disk: seq<Block>)
    requires BufsOk(buf, disk)
    ensures |DirtyBufs(buf)| == |DirtySet(buf)|
  {
    var f := i => if 0 <= i < |buf| then buf[i].blockno else 0;
    forall i, j | i in DirtyBufs(buf) && j in DirtyBufs(buf) && i < j ensures f(i) != f(j) {
      assert BufOk(buf[i], disk) && BufOk(buf[j], disk) && !SameBlock(buf, i, j);
    }
    forall y ensures y in DirtySet(buf) <==> exists i :: i in DirtyBufs(buf) && f(i) == y {
      if y in DirtySet(buf) {
        var i :| 0 <= i < |buf| && buf[i].dirty && buf[i].blockno == y;
        assert i in DirtyBufs(buf) && f(i) == y;
      }
    }
    ImageSize(DirtyBufs(buf), f, DirtySet(buf));
  }

  /** With fewer pinned blocks than buffers, bget has a buffer to recycle. */
  lemma FreeBuffer(buf: seq<Buf>, disk: seq<Block>, held: set<int>) returns (c: int)
    requires BufsOk(buf, disk) && |DirtySet(buf)| + |held| < NBUF
    ensures 0 <= c < NBUF && !buf[c].dirty && c !in held
  {
    DirtyCount(buf, disk);
    var range := Range(NBUF);
    var taken := DirtyBufs(buf) + held;
    assert |taken| <= |DirtyBufs(buf)| + |held| by {
      assert taken == DirtyBufs(buf) + (held - DirtyBufs(buf));
      SubsetSize(held - DirtyBufs(buf), held);
    }
    if range <= taken { SubsetSize(range, taken); }
    c :| c in range && c !in taken;
  }

  /** With as many pinned blocks as buffers, every buffer is pinned. */
  lemma AllPinned(buf: seq<Buf>, disk: seq<Block>)
    requires BufsOk(buf, disk) && |DirtySet(buf)| == NBUF
    ensures forall i :: 0 <= i < NBUF ==> buf[i].dirty
  {
    DirtyCount(buf, disk);
    hide DirtySet, BufOk, Unique;
    forall i | 0 <= i < NBUF ensures buf[i].dirty {
      if !buf[i].dirty { SubsetSize(DirtyBufs(buf), Range(NBUF) - {i}); }
    }
  }

  /** bget of a block that is not dirty: it has a buffer unless all are pinned. */
  lemma RecycleOrNot(buf: seq<Buf>, disk: seq<Block>, bn: nat)
    requires BufsOk(buf, disk) && Idle(buf) && bn !in DirtySet(buf)
    ensures |DirtySet(buf)| <= NBUF
    ensures |DirtySet(buf)| < NBUF <==>
              (exists i :: 0 <= i < NBUF && Caches(buf[i], ROOTDEV, bn))
              || exists c :: 0 <= c < NBUF && Recyclable(buf[c])
  {
    DirtyCount(buf, disk);
    SubsetSize(DirtyBufs(buf), Range(NBUF));
    if |DirtySet(buf)| < NBUF {
      var c := FreeBuffer(buf, disk, {});
      assert Recyclable(buf[c]);
    } else {
      AllPinned(buf, disk);
    }
  }

  lemma DirtyHeld(buf: seq<Buf>, disk: seq<Block>, b: nat)
    requires BufsOk(buf, disk) && b < NBUF && buf[b].dev == ROOTDEV
    ensures buf[b].dirty <==> buf[b].blockno in DirtySet(buf)
  {
    forall i | 0 <= i < NBUF && buf[i].dirty && buf[i].blockno == buf[b].blockno ensures i == b {
      assert i != b ==> !SameBlock(buf, i, b);
    }
  }

  /** Writing a buffer out unpins its block. */
  lemma Cleaned(buf: seq<Buf>, disk: seq<Block>, buf': seq<Buf>, d: nat)
    requires BufsOk(buf, disk) && |buf'| == NBUF && d < NBUF && buf[d].dev == ROOTDEV
    requires forall i :: 0 <= i < NBUF ==>
               buf'[i].dirty == (buf[i].dirty && i != d) && buf'[i].blockno == buf[i].blockno
    ensures DirtySet(buf') == DirtySet(buf) - {buf[d].blockno}
  {
    forall i | 0 <= i < NBUF && i != d && buf[i].dirty ensures buf[i].blockno != buf[d].blockno {
      assert !SameBlock(buf, d, i);
    }
    forall n | n in DirtySet(buf) && n != buf[d].blockno ensures n in DirtySet(buf') {
      var i :| 0 <= i < NBUF && buf[i].dirty && buf[i].blockno == n;
      assert buf'[i].dirty;
    }
  }

  /** Reading a block dirties nothing and cleans nothing. */
  lemma SameDirty(buf: seq<Buf>, buf': seq<Buf>, b: nat)
    requires |buf| == |buf'| && b < |buf| && buf' == buf[b := buf'[b]]
    requires buf'[b].dirty == buf[b].dirty && (buf[b].dirty ==> buf'[b].blockno == buf[b].blockno)
    ensures DirtySet(buf') == DirtySet(buf)
  {
    assert forall i :: 0 <= i < |buf| ==>
             buf'[i].dirty == buf[i].dirty && (buf[i].dirty ==> buf'[i].blockno == buf[i].blockno);
  }

  /** A block with no dirty buffer reads from the cache as it does from disk. */
  lemma CleanView(buf: seq<Buf>, disk: seq<Block>, bn: nat)
    requires BufsOk(buf, disk) && Idle(buf) && bn < |disk| && bn !in DirtySet(buf)
    ensures Flat(buf, disk)[bn] == disk[bn]
  {
    if i :| Holds(buf, i, bn) { LookupHeld(buf, disk, i); }
  }

  ghost predicate InRange(bs: seq<nat>, n: nat) {
    forall i :: 0 <= i < |bs| ==> bs[i] < n
  }

  /** The current contents of the blocks listed. */
  ghost function Contents(view: seq<Block>, bs: seq<nat>): (r: seq<Block>)
    requires InRange(bs, |view|)
    ensures |r| == |bs| && forall i :: 0 <= i < |bs| ==> r[i] == view[bs[i]]
  {
    seq(|bs|, i requires 0 <= i < |bs| => view[bs[i]])
  }

  /** write_log's state after its first tail blocks, from disk d0, contents v0. */
  ghost predicate LogProgress(a: Area, t: Txn, d0: seq<Block>, v0: seq<Block>, tr0: seq<Write>, tail: nat,
                              disk: seq<Block>, view: seq<Block>, trace: seq<Write>) {
    && |disk| == |view| == |d0| == |v0|
    && AreaOk(a, |d0|) && TxnOk(a, |d0|, t) && tail <= |t.blocks|
    && (forall i :: 0 <= i < |t.blocks| ==> t.data[i] == v0[t.blocks[i]])
    && HomeIs(a, view, v0)
    && trace == tr0 + LogWrites(a, t)[..tail]
    && disk == Apply(d0, LogWrites(a, t), tail)
  }

  lemma LogProgressNext(a: Area, t: Txn, d0: seq<Block>, v0: seq<Block>, tr0: seq<Write>, tail: nat,
                        disk: seq<Block>, view: seq<Block>, trace: seq<Write>)
    requires LogProgress(a, t, d0, v0, tr0, tail, disk, view, trace) && tail < |t.blocks|
    ensures var l, b := a.start + tail + 1, t.blocks[tail];
            && l < |disk| && b < |disk| && |disk| == |view| && l != b
            && LogProgress(a, t, d0, v0, tr0, tail + 1, disk[l := view[b]], view[l := view[b]],
                           trace + [Write(l, view[b])])
  {
    PrefixSnoc(LogWrites(a, t), tail);
    assert LogWrites(a, t)[tail] == Write(a.start + tail + 1, view[t.blocks[tail]]);
    assert InLog(a, a.start + tail + 1);
  }

  /** Log blocks are not among the blocks logged. */
  lemma NotLogged(a: Area, bs: seq<nat>, l: nat)
    requires InLog(a, l) && forall i :: 0 <= i < |bs| ==> !InLog(a, bs[i])
    requires NoDup(bs)
    ensures l !in ToSet(bs) && ToSet(bs) - {l} == ToSet(bs) && |ToSet(bs)| == |bs|
    ensures forall i :: 0 <= i < |bs| ==> bs[i] in ToSet(bs)
  {
    ToSetSize(bs);
  }

  lemma LogStep(a: Area, t: Txn, d0: seq<Block>, v0: seq<Block>, tr0: seq<Write>, tail: nat,
                disk: seq<Block>, view: seq<Block>, trace: seq<Write>)
    requires LogProgress(a, t, d0, v0, tr0, tail, disk, view, trace) && tail < |t.blocks|
    ensures var l, b := a.start + tail + 1, t.blocks[tail];
            && l < |disk| && b < |disk| && |disk| == |view| && l != b
            && b in ToSet(t.blocks) && l !in ToSet(t.blocks) && ToSet(t.blocks) - {l} == ToSet(t.blocks)
            && |ToSet(t.blocks)| == |t.blocks| <= NBUF
            && LogProgress(a, t, d0, v0, tr0, tail + 1, disk[l := view[b]], view[l := view[b]],
                           trace + [Write(l, view[b])])
  {
    assert |t.blocks| <= NBUF && tail + 1 < a.size;
    NotLogged(a, t.blocks, a.start + tail + 1);
    hide LogProgress, ToSet;
    LogProgressNext(a, t, d0, v0, tr0, tail, disk, view, trace);
  }

  /** install_trans's state after its first tail blocks, from disk d0. */
  ghost predicate InstallProgress(a: Area, bs: seq<nat>, d0: seq<Block>, tr0: seq<Write>, tail: nat,
                                  disk: seq<Block>, trace: seq<Write>) {
    && |disk| == |d0| && AreaOk(a, |d0|) && tail <= |bs| < a.size
    && (forall b :: 0 <= b < |d0| && InLog(a, b) ==> disk[b] == d0[b])
    && trace == tr0 + InstallWrites(a, d0, bs)[..tail]
    && disk == Apply(d0, InstallWrites(a, d0, bs), tail)
  }

  lemma InstallProgressNext(a: Area, bs: seq<nat>, d0: seq<Block>, tr0: seq<Write>, tail: nat, disk: seq<Block>,
                            trace: seq<Write>)
    requires InstallProgress(a, bs, d0, tr0, tail, disk, trace) && tail < |bs| && bs[tail] < |d0| && !InLog(a, bs[tail])
    ensures var b, x := bs[tail], disk[a.start + tail + 1];
            InstallProgress(a, bs, d0, tr0, tail + 1, disk[b := x], trace + [Write(b, x)])
  {
    PrefixSnoc(InstallWrites(a, d0, bs), tail);
    assert InLog(a, a.start + tail + 1);
    assert InstallWrites(a, d0, bs)[tail] == Write(bs[tail], disk[a.start + tail + 1]);
  }

  lemma InstallStep(a: Area, bs: seq<nat>, d0: seq<Block>, tr0: seq<Write>, tail: nat, disk: seq<Block>,
                    trace: seq<Write>)
    requires InstallProgress(a, bs, d0, tr0, tail, disk, trace) && tail < |bs| && NoDup(bs) && InRange(bs, |d0|)
    requires forall i :: 0 <= i < |bs| ==> !InLog(a, bs[i])
    ensures var l, b := a.start + tail + 1, bs[tail];
            && l < |disk| && b < |disk| && l != b && |disk| == |d0|
            && b in ToSet(bs[tail..]) && l !in ToSet(bs[tail..]) && ToSet(bs[tail..]) - {b} == ToSet(bs[tail+1..])
            && |ToSet(bs[tail..])| == |bs| - tail
            && InstallProgress(a, bs, d0, tr0, tail + 1, disk[b := disk[l]], trace + [Write(b, disk[l])])
  {
    assert InLog(a, a.start + tail + 1);
    NotLogged(a, bs[tail..], a.start + tail + 1);
    ToSetTail(bs[tail..]);
    assert bs[tail..][0] == bs[tail] && bs[tail..][1..] == bs[tail+1..];
    InstallProgressNext(a, bs, d0, tr0, tail, disk, trace);
  }

  class Journal {
    const cache: Cache
    const area: Area
    var outstanding: nat
    var blocks: seq<nat>      // log.lh.block[..log.lh.n]

    constructor (c: Cache, a: Area)
      ensures cache == c && area == a && blocks == [] && outstanding == 0
    {
      cache, area, blocks, outstanding := c, a, [], 0;
    }

    /** Between operations: nobody holds a buffer, and the pinned blocks are
        the logged ones, which are few enough for the log area. */
    ghost predicate Valid()
      reads this, cache
    {
      && cache.Valid() && Idle(cache.buf)
      && AreaOk(area, |cache.disk|) && Xv6Format(area)
      && InRange(blocks, |cache.disk|) && TxnOk(area, |cache.disk|, Pending())
      && DirtySet(cache.buf) == ToSet(blocks)
    }

    /** The transaction commit would write. */
    ghost function Pending(): Txn
      requires InRange(blocks, |cache.disk|)
      reads this, cache
    {
      Txn(blocks, Contents(cache.View(), blocks))
    }

    /** bread the log block, bread the home block, memmove one to the other,
        bwrite the destination, brelse the source and the destination: the
        loop body of write_log (toLog) and of install_trans (!toLog). */
    method CopyBlock(logno: nat, homeno: nat, toLog: bool) returns (ok: bool)
      requires cache.Valid() && Idle(cache.buf)
      requires logno < |cache.disk| && homeno < |cache.disk| && logno != homeno && logno !in DirtySet(cache.buf)
      requires |DirtySet(cache.buf)| + 2 <= NBUF || homeno in DirtySet(cache.buf)
      modifies cache
      ensures ok <==> |DirtySet(old(cache.buf))| < NBUF
      ensures !ok ==> cache.trace == old(cache.trace) && cache.disk == old(cache.disk)
      ensures ok ==> cache.Valid() && Idle(cache.buf)
      ensures ok ==>
                var src, dst := if toLog then homeno else logno, if toLog then logno else homeno;
                && cache.View() == old(cache.View())[dst := old(cache.View())[src]]
                && cache.disk == old(cache.disk)[dst := old(cache.View())[src]]
                && cache.trace == old(cache.trace) + [Write(dst, old(cache.View())[src])]
                && DirtySet(cache.buf) == DirtySet(old(cache.buf)) - {dst}
    {
      var l, h;
      ok, l, h := BreadBoth(logno, homeno);
      if ok { Finish(l, h, toLog); }
    }

    /** Only the buffers l and h are in use, both read and locked. */
    ghost predicate InHand(l: nat, h: nat)
      reads cache
    {
      && cache.Valid() && l < NBUF && h < NBUF && l != h
      && cache.buf[l].locked && cache.buf[l].valid && cache.buf[l].refcnt == 1
      && cache.buf[h].locked && cache.buf[h].valid && cache.buf[h].refcnt == 1
      && (forall i :: 0 <= i < NBUF && i != l && i != h ==> cache.buf[i].refcnt == 0 && !cache.buf[i].locked)
      && !cache.buf[l].dirty && cache.buf[l].data == cache.disk[cache.buf[l].blockno]
      && (!cache.buf[h].dirty ==> cache.buf[h].data == cache.disk[cache.buf[h].blockno])
    }

    method BreadBoth(logno: nat, homeno: nat) returns (ok: bool, l: nat, h: nat)
      requires cache.Valid() && Idle(cache.buf)
      requires logno < |cache.disk| && homeno < |cache.disk| && logno != homeno && logno !in DirtySet(cache.buf)
      requires |DirtySet(cache.buf)| + 2 <= NBUF || homeno in DirtySet(cache.buf)
      modifies cache`buf, cache`disk, cache`trace
      ensures cache.trace == old(cache.trace) && cache.disk == old(cache.disk)
      ensures ok <==> |DirtySet(old(cache.buf))| < NBUF
      ensures ok ==>
                InHand(l, h) && cache.View() == old(cache.View()) && DirtySet(cache.buf) == DirtySet(old(cache.buf))
      ensures ok ==> cache.buf[l].blockno == logno && cache.buf[l].data == cache.View()[logno]
      ensures ok ==> cache.buf[h].blockno == homeno && cache.buf[h].data == cache.View()[homeno]
    {
      h := NBUF;
      ok, l := BreadClean(logno);
      if !ok { return; }
      ghost var buf1 := cache.buf;
      if homeno in DirtySet(buf1) {
        var i :| 0 <= i < NBUF && buf1[i].dirty && buf1[i].blockno == homeno;
        assert Caches(buf1[i], ROOTDEV, homeno);
      } else {
        var c := FreeBuffer(buf1, cache.disk, {l});
        assert Recyclable(buf1[c]);
        CleanView(old(cache.buf), cache.disk, homeno);
      }
      ok, h := cache.Bread(homeno);
      SameDirty(buf1, cache.buf, h);
      DirtyHeld(cache.buf, cache.disk, h);
    }

    /** bread of a block that is not dirty, no buffer being in use. */
    method BreadClean(bn: nat) returns (ok: bool, l: nat)
      requires cache.Valid() && Idle(cache.buf) && bn < |cache.disk| && bn !in DirtySet(cache.buf)
      modifies cache`buf, cache`disk, cache`trace
      ensures cache.trace == old(cache.trace) && cache.disk == old(cache.disk)
      ensures ok <==> |DirtySet(old(cache.buf))| < NBUF
      ensures ok ==>
                cache.Valid() && cache.View() == old(cache.View()) && DirtySet(cache.buf) == DirtySet(old(cache.buf))
      ensures ok ==> l < NBUF && Caches(cache.buf[l], ROOTDEV, bn) && cache.buf[l].locked && cache.buf[l].valid
      ensures ok ==> cache.buf[l].refcnt == 1 && !cache.buf[l].dirty
      ensures ok ==> cache.buf[l].data == cache.View()[bn] == cache.disk[bn]
      ensures ok ==> forall i :: 0 <= i < NBUF && i != l ==> cache.buf[i].refcnt == 0 && !cache.buf[i].locked
    {
      ghost var buf0 := cache.buf;
      RecycleOrNot(buf0, cache.disk, bn);
      ok, l := cache.Bread(bn);
      if ok {
        SameDirty(buf0, cache.buf, l);
        CleanView(buf0, cache.disk, bn);
        DirtyHeld(cache.buf, cache.disk, l);
      }
    }

    /** The second half of CopyBlock, both buffers in hand. */
    method Finish(l: nat, h: nat, toLog: bool)
      requires InHand(l, h)
      modifies cache
      ensures cache.Valid() && Idle(cache.buf)
      ensures var s, d := old(cache.buf)[if toLog then h else l], old(cache.buf)[if toLog then l else h];
              && d.blockno < |old(cache.disk)|
              && cache.View() == old(cache.View())[d.blockno := s.data]
              && cache.disk == old(cache.disk)[d.blockno := s.data]
              && cache.trace == old(cache.trace) + [Write(d.blockno, s.data)]
              && DirtySet(cache.buf) == DirtySet(old(cache.buf)) - {d.blockno}
    {
      var s, d := if toLog then h else l, if toLog then l else h;
      cache.Store(d, cache.buf[s].data);
      cache.Bwrite(d);
      cache.Brelse(s);
      cache.Brelse(d);
      ghost var buf0 := old(cache.buf);
      forall i | 0 <= i < NBUF
        ensures cache.buf[i].dirty == (buf0[i].dirty && i != d) && cache.buf[i].blockno == buf0[i].blockno { }
      Cleaned(buf0, old(cache.disk), cache.buf, d);
    }

    /** write_log. It panics for want of a buffer exactly when the transaction
        has pinned them all. */
    method WriteLog() returns (ok: bool)
      requires Valid()
      modifies cache
      ensures ok <==> |blocks| < NBUF
      ensures !ok ==> cache.trace == old(cache.trace) && cache.disk == old(cache.disk)
      ensures ok ==> Valid() && Pending() == old(Pending())
      ensures ok ==> cache.trace == old(cache.trace) + LogWrites(area, old(Pending()))
      ensures ok ==> cache.disk == Apply(old(cache.disk), LogWrites(area, old(Pending())), |blocks|)
      ensures ok ==> HomeIs(area, cache.View(), old(cache.View()))
    {
      ok := true;
      ghost var t, d0, v0, tr0 := Pending(), cache.disk, cache.View(), cache.trace;
      ToSetSize(blocks);
      var tail := 0;
      while tail < |blocks|
        invariant 0 <= tail <= |blocks|
        invariant tail > 0 ==> |blocks| < NBUF
        invariant t.blocks == blocks && Written(t, d0, v0, tr0, tail)
      {
        ok := WriteLogBlock(tail, t, d0, v0, tr0);
        if !ok { return; }
        tail := tail + 1;
      }
      assert LogWrites(area, t)[..|blocks|] == LogWrites(area, t);
      assert Contents(cache.View(), blocks) == t.data;
    }

    /** write_log is done with its first tail blocks. */
    ghost predicate Written(t: Txn, d0: seq<Block>, v0: seq<Block>, tr0: seq<Write>, tail: nat)
      reads cache
    {
      && cache.Valid() && Idle(cache.buf) && DirtySet(cache.buf) == ToSet(t.blocks)
      && LogProgress(area, t, d0, v0, tr0, tail, cache.disk, cache.View(), cache.trace)
    }

    method WriteLogBlock(tail: nat, ghost t: Txn, ghost d0: seq<Block>, ghost v0: seq<Block>, ghost tr0: seq<Write>)
      returns (ok: bool)
      requires tail < |blocks| && blocks == t.blocks && Written(t, d0, v0, tr0, tail)
      modifies cache
      ensures ok <==> |blocks| < NBUF
      ensures !ok ==> cache.trace == old(cache.trace) && cache.disk == old(cache.disk)
      ensures ok ==> Written(t, d0, v0, tr0, tail + 1)
    {
      hide LogProgress, DirtySet, ToSet, Flat, BufsOk, Linked, Permutation, ByRelease;
      var l := area.start + tail + 1;
      LogStep(area, t, d0, v0, tr0, tail, cache.disk, cache.View(), cache.trace);
      ok := CopyBlock(l, blocks[tail], true);
    }

    /** install_trans, from commit (its blocks pinned) or from recovery (none). */
    method InstallTrans()
      requires cache.Valid() && Idle(cache.buf) && Installable(|cache.disk|)
      requires DirtySet(cache.buf) == {} || (DirtySet(cache.buf) == ToSet(blocks) && |blocks| < NBUF)
      modifies cache
      ensures cache.Valid() && Idle(cache.buf) && DirtySet(cache.buf) == {}
      ensures cache.trace == old(cache.trace) + InstallWrites(area, old(cache.disk), blocks)
      ensures cache.disk == Apply(old(cache.disk), InstallWrites(area, old(cache.disk), blocks), |blocks|)
    {
      ghost var d0, tr0, pinned := cache.disk, cache.trace, DirtySet(cache.buf) != {};
      assert blocks[0..] == blocks;
      var tail := 0;
      while tail < |blocks|
        invariant Installed(d0, tr0, pinned, tail)
      {
        InstallBlock(tail, d0, tr0, pinned);
        tail := tail + 1;
      }
      assert InstallWrites(area, d0, blocks)[..|blocks|] == InstallWrites(area, d0, blocks);
      assert blocks[|blocks|..] == [];
    }

    ghost predicate Installable(n: nat)
      reads this
    {
      && AreaOk(area, n) && |blocks| < area.size && NoDup(blocks) && InRange(blocks, n)
      && (forall i :: 0 <= i < |blocks| ==> !InLog(area, blocks[i]))
    }

    /** install_trans is done with its first tail blocks. */
    ghost predicate Installed(d0: seq<Block>, tr0: seq<Write>, pinned: bool, tail: nat)
      reads this, cache
    {
      && tail <= |blocks| && Installable(|d0|) && (pinned ==> |blocks| < NBUF)
      && cache.Valid() && Idle(cache.buf)
      && DirtySet(cache.buf) == (if pinned then ToSet(blocks[tail..]) else {})
      && InstallProgress(area, blocks, d0, tr0, tail, cache.disk, cache.trace)
    }

    method InstallBlock(tail: nat, ghost d0: seq<Block>, ghost tr0: seq<Write>, ghost pinned: bool)
      requires tail < |blocks| && Installed(d0, tr0, pinned, tail)
      modifies cache
      ensures Installed(d0, tr0, pinned, tail + 1)
    {
      hide InstallProgress, Flat, BufsOk, Linked, Permutation, ByRelease;
      var l := area.start + tail + 1;
      InstallStep(area, blocks, d0, tr0, tail, cache.disk, cache.trace);
      CleanView(cache.buf, cache.disk, l);
      var ok := CopyBlock(l, blocks[tail], false);
    }

    /** write_head. */
    method WriteHead()
      requires cache.Valid() && Idle(cache.buf) && AreaOk(area, |cache.disk|) && Xv6Format(area) && Numbers(blocks)
      requires area.start !in DirtySet(cache.buf) && |DirtySet(cache.buf)| < NBUF
      modifies cache
      ensures cache.Valid() && Idle(cache.buf) && DirtySet(cache.buf) == DirtySet(old(cache.buf))
      ensures cache.trace == old(cache.trace) + [HeadWrite(area, old(cache.disk)[area.start], blocks)]
      ensures cache.disk == old(cache.disk)[area.start := area.header(old(cache.disk)[area.start], blocks)]
      ensures cache.View() == old(cache.View())[area.start := area.header(old(cache.disk)[area.start], blocks)]
    {
      hide DirtySet, Flat, BufOk, Unique, Linked, Permutation, ByRelease;
      var ok, b := BreadClean(area.start);
      ghost var h := cache.disk[area.start];
      var hb := PutWord(cache.buf[b].data, 0, |blocks|);
      var i := 0;
      while i < |blocks|
        invariant 0 <= i <= |blocks|
        invariant hb == PutListed(h, blocks, i)
      {
        hb := PutWord(hb, i + 1, blocks[i]);
        i := i + 1;
      }
      hide PutListed, PutWord;
      ghost var buf1 := cache.buf;
      cache.Store(b, hb);
      cache.Bwrite(b);
      cache.Brelse(b);
      SameDirty(buf1, cache.buf, b);
    }

    /** read_head. */
    method ReadHead()
      requires cache.Valid() && Idle(cache.buf) && Recoverable(area, cache.disk) && Xv6Format(area)
               && DirtySet(cache.buf) == {}
      modifies cache, this`blocks
      ensures cache.Valid() && Idle(cache.buf) && DirtySet(cache.buf) == {}
      ensures cache.disk == old(cache.disk) && cache.trace == old(cache.trace)
      ensures blocks == area.listed(cache.disk[area.start])
    {
      var ok, b := BreadClean(area.start);
      var lh := cache.buf[b].data;
      var bs: seq<nat>, i := [], 0;
      while i < Word(lh, 0)
        invariant 0 <= i <= Word(lh, 0)
        invariant bs == Listed(lh)[..i]
      {
        bs := bs + [Word(lh, i + 1)];
        i := i + 1;
      }
      blocks := bs;
      ghost var buf1 := cache.buf;
      cache.Brelse(b);
      SameDirty(buf1, cache.buf, b);
    }

    /** recover_from_log, at boot: the cache is empty and the disk is whatever
        a crash left of some commit. */
    method RecoverFromLog(ghost home: seq<Block>)
      requires cache.Valid() && Idle(cache.buf) && DirtySet(cache.buf) == {} && Committed(area, cache.disk, home)
               && Xv6Format(area)
      modifies cache, this`blocks
      ensures Valid() && blocks == []
      ensures cache.trace == old(cache.trace) + RecoverTrace(area, old(cache.disk))
      ensures cache.disk == Apply(old(cache.disk), RecoverTrace(area, old(cache.disk)),
                                  |RecoverTrace(area, old(cache.disk))|)
      ensures Settled(area, cache.disk, home)
    {
      hide Apply, InstallWrites;
      ReadHead();
      InstallThenClear(area, cache.disk, home);
      Unlog();
    }

    /** install_trans, then the cleared header: the common end of commit and
        recovery. */
    method Unlog()
      requires cache.Valid() && Idle(cache.buf) && Installable(|cache.disk|) && Xv6Format(area)
      requires DirtySet(cache.buf) == {} || (DirtySet(cache.buf) == ToSet(blocks) && |blocks| < NBUF)
      requires var disk1 := Apply(cache.disk, InstallWrites(area, cache.disk, blocks), |blocks|);
               disk1[area.start] == cache.disk[area.start]
      modifies cache, this`blocks
      ensures cache.Valid() && Idle(cache.buf) && DirtySet(cache.buf) == {} && blocks == []
      ensures var head := HeadWrite(area, old(cache.disk)[area.start], []);
              cache.trace == old(cache.trace) + (InstallWrites(area, old(cache.disk), old(blocks)) + [head])
      ensures var disk1 := Apply(old(cache.disk), InstallWrites(area, old(cache.disk), old(blocks)), |old(blocks)|);
              cache.disk == disk1[area.start := area.header(old(cache.disk)[area.start], [])]
    {
      InstallTrans();
      blocks := [];
      WriteHead();
    }

    /** write_log and write_head: up to the commit point. */
    method Seal(ghost home: seq<Block>) returns (ok: bool)
      requires Valid() && Settled(area, cache.disk, home)
      modifies cache
      ensures ok <==> |blocks| < NBUF
      ensures !ok ==> cache.trace == old(cache.trace) && cache.disk == old(cache.disk)
      ensures ok ==> cache.Valid() && Idle(cache.buf) && DirtySet(cache.buf) == ToSet(blocks)
      ensures ok ==> cache.disk == Sealed(area, old(cache.disk), old(Pending()))
      ensures ok ==> cache.trace == old(cache.trace) + SealWrites(area, old(cache.disk), old(Pending()))
    {
      hide Apply, HomeIs, LogWrites, DirtySet, ToSet, Flat, BufsOk, Linked, Permutation, ByRelease;
      ghost var t, d0 := Pending(), cache.disk;
      ok := WriteLog();
      if ok {
        LogPrefix(area, d0, home, t, |t.blocks|);
        NotLogged(area, blocks, area.start);
        WriteHead();
      }
    }

    /** commit. It fails, before any write, exactly when the transaction has
        pinned every buffer; otherwise its writes are CommitTrace, and what
        the cache showed before is what the disk holds after. */
    method Commit(ghost home: seq<Block>) returns (ok: bool)
      requires Valid() && Settled(area, cache.disk, home)
      modifies cache, this`blocks
      ensures ok <==> |old(blocks)| < NBUF
      ensures !ok ==> cache.trace == old(cache.trace) && cache.disk == old(cache.disk)
      ensures ok ==> Valid() && blocks == []
      ensures ok ==> cache.trace == old(cache.trace) + CommitTrace(area, old(cache.disk), old(Pending()))
      ensures ok ==>
                cache.disk == Apply(old(cache.disk), CommitTrace(area, old(cache.disk), old(Pending())),
                                    |CommitTrace(area, old(cache.disk), old(Pending()))|)
      ensures ok ==> Settled(area, cache.disk, Updated(home, old(Pending())))
      ensures ok ==> HomeIs(area, old(cache.View()), Updated(home, old(Pending())))
    {
      ok := true;
      ghost var t := Pending();
      DurableIsView(area, cache.buf, cache.disk, home, t);
      CommitSettles(area, cache.disk, home, t);
      if |blocks| > 0 { ok := SealAndUnlog(home); }
    }

    method SealAndUnlog(ghost home: seq<Block>) returns (ok: bool)
      requires Valid() && Settled(area, cache.disk, home) && |blocks| > 0
      modifies cache, this`blocks
      ensures ok <==> |old(blocks)| < NBUF
      ensures !ok ==> cache.trace == old(cache.trace) && cache.disk == old(cache.disk)
      ensures ok ==> Valid() && blocks == []
      ensures ok ==> cache.trace == old(cache.trace) + CommitTrace(area, old(cache.disk), old(Pending()))
      ensures ok ==>
                cache.disk == Apply(old(cache.disk), CommitTrace(area, old(cache.disk), old(Pending())),
                                    |CommitTrace(area, old(cache.disk), old(Pending()))|)
    {
      hide Apply, HomeIs, Updated, SealWrites, CommitTrace, InstallWrites, DirtySet, Flat, BufsOk, Linked, Permutation,
           ByRelease, Settled, Committed, Logged;
      ghost var t := Pending();
      CommitSplit(area, cache.disk, home, t);
      CommitTail(area, cache.disk, home, t, |t.blocks| + 1);
      ok := Seal(home);
      if ok {
        Assoc(old(cache.trace), SealWrites(area, old(cache.disk), t), RecoverTrace(area, cache.disk));
        InstallThenClear(area, cache.disk, Updated(home, t));
        Unlog();
      }
    }

    /** log_write of a locked buffer. Its two panics come before anything else. */
    method LogWrite(b: nat) returns (ok: bool)
      requires cache.Valid() && b < NBUF && cache.buf[b].locked && cache.buf[b].valid && NoDup(blocks)
      modifies cache, this`blocks
      ensures ok <==> old(|blocks| < LOGSIZE && |blocks| < area.size - 1 && outstanding >= 1)
      ensures !ok ==> blocks == old(blocks) && cache.buf == old(cache.buf)
      ensures cache.Valid() && NoDup(blocks) && cache.disk == old(cache.disk) && cache.trace == old(cache.trace)
      ensures cache.View() == old(cache.View())
      ensures ok ==> |blocks| <= LOGSIZE && |blocks| < area.size
      ensures ok ==> ToSet(blocks) == ToSet(old(blocks)) + {old(cache.buf[b]).blockno}
      ensures ok ==> cache.buf == old(cache.buf)[b := old(cache.buf[b]).(dirty := true)]
      ensures ok ==> DirtySet(cache.buf) == DirtySet(old(cache.buf)) + {old(cache.buf[b]).blockno}
    {
      if |blocks| >= LOGSIZE || |blocks| >= area.size - 1 || outstanding < 1 { return false; }
      ok := true;
      var bn, i := cache.buf[b].blockno, 0;
      while i < |blocks| && blocks[i] != bn
        invariant 0 <= i <= |blocks| && bn !in blocks[..i]
      {
        i := i + 1;
      }
      if i == |blocks| {
        ToSetSnoc(blocks, bn);
        blocks := blocks + [bn];
      } else {
        assert blocks[i] in ToSet(blocks);
        assert blocks[i := bn] == blocks;
        blocks := blocks[i := bn];
      }
      cache.Pin(b);
      Pinned(old(cache.buf), b);
    }

    /** bread, memmove, log_write and brelse: how every operation of the file system
        changes a block. It panics exactly on log_write's guards; there is always a
        buffer before the log is full. */
    method Update(bn: nat, data: Block) returns (ok: bool)
      requires Valid() && bn < |cache.disk| && !InLog(area, bn)
      modifies cache, this`blocks
      ensures ok <==> old(|blocks| < LOGSIZE && |blocks| < area.size - 1 && outstanding >= 1)
      ensures cache.disk == old(cache.disk) && cache.trace == old(cache.trace)
      ensures ok ==>
                Valid() && cache.View() == old(cache.View())[bn := data] && ToSet(blocks) == ToSet(old(blocks)) + {bn}
    {
      hide Flat, BufOk, Unique, Linked, Permutation, ByRelease, DirtySet;
      ToSetSize(blocks);
      var b;
      ok, b := BreadAny(bn);
      if !ok { return; }
      ghost var buf1 := cache.buf;
      cache.Store(b, data);
      SameDirty(buf1, cache.buf, b);
      ok := LogWrite(b);
      if !ok { return; }
      ghost var buf2 := cache.buf;
      cache.Brelse(b);
      SameDirty(buf2, cache.buf, b);
      StillFits(area, |cache.disk|, old(blocks), blocks, bn);
    }

    /** bread of a block when no buffer is in use. */
    method BreadAny(bn: nat) returns (ok: bool, b: nat)
      requires cache.Valid() && Idle(cache.buf) && bn < |cache.disk|
      modifies cache`buf, cache`disk, cache`trace
      ensures cache.trace == old(cache.trace) && cache.disk == old(cache.disk)
      ensures ok <==> |DirtySet(old(cache.buf))| < NBUF || bn in DirtySet(old(cache.buf))
      ensures ok ==>
                cache.Valid() && cache.View() == old(cache.View()) && DirtySet(cache.buf) == DirtySet(old(cache.buf))
      ensures ok ==>
                b < NBUF && Caches(cache.buf[b], ROOTDEV, bn) && cache.buf[b].locked && cache.buf[b].valid
                && cache.buf[b].refcnt == 1
      ensures ok ==> forall i :: 0 <= i < NBUF && i != b ==> cache.buf[i].refcnt == 0 && !cache.buf[i].locked
    {
      ghost var buf0 := cache.buf;
      if bn in DirtySet(buf0) {
        var i :| 0 <= i < NBUF && buf0[i].dirty && buf0[i].blockno == bn;
        assert Caches(buf0[i], ROOTDEV, bn);
      } else {
        RecycleOrNot(buf0, cache.disk, bn);
      }
      ok, b := cache.Bread(bn);
      if ok { SameDirty(buf0, cache.buf, b); }
    }

    /** begin_op, the writes, and end_op's commit, with no other operation running. It
        panics exactly when the log is full before the last write or when every buffer
        is pinned; otherwise all the writes are on disk. */
    method Transact(ws: seq<Write>, ghost home: seq<Block>) returns (ok: bool)
      requires Valid() && blocks == [] && outstanding == 0 && Settled(area, cache.disk, home)
      requires forall i :: 0 <= i < |ws| ==> ws[i].blockno < |cache.disk| && !InLog(area, ws[i].blockno)
      modifies cache, this
      ensures ok <==>
                (|ws| > 0 ==> |Touched(ws, |ws| - 1)| < LOGSIZE && |Touched(ws, |ws| - 1)| < area.size - 1)
                && |Touched(ws, |ws|)| < NBUF
      ensures ok ==> Valid() && blocks == [] && outstanding == 0
      ensures ok ==> Settled(area, cache.disk, Apply(home, ws, |ws|))
      ensures !ok ==> cache.disk == old(cache.disk) && cache.trace == old(cache.trace)
    {
      hide Flat, BufsOk, Linked, Permutation, ByRelease, DirtySet, CommitTrace, Apply, Updated, Touched;
      outstanding := 1;
      AllClean(cache.buf, cache.disk);
      ok := UpdateAll(ws, home);
      if !ok { return; }
      outstanding := 0;
      ToSetSize(blocks);
      ok := Commit(home);
    }

    method UpdateAll(ws: seq<Write>, ghost home: seq<Block>) returns (ok: bool)
      requires Valid() && blocks == [] && outstanding >= 1 && HomeIs(area, cache.View(), home)
      requires forall i :: 0 <= i < |ws| ==> ws[i].blockno < |cache.disk| && !InLog(area, ws[i].blockno)
      modifies cache, this`blocks
      ensures ok <==> (|ws| > 0 ==> |Touched(ws, |ws| - 1)| < LOGSIZE && |Touched(ws, |ws| - 1)| < area.size - 1)
      ensures cache.disk == old(cache.disk) && cache.trace == old(cache.trace)
      ensures ok ==> Valid() && ToSet(blocks) == Touched(ws, |ws|) && HomeIs(area, cache.View(), Apply(home, ws, |ws|))
    {
      hide Flat, BufsOk, Linked, Permutation, ByRelease, DirtySet, HomeIs, ToSet, AreaOk, Xv6Format;
      ok := true;
      var j := 0;
      NoneTouched(ws, blocks);
      while j < |ws|
        invariant 0 <= j <= |ws| && Valid() && cache.disk == old(cache.disk) && cache.trace == old(cache.trace)
        invariant ToSet(blocks) == Touched(ws, j) && HomeIs(area, cache.View(), Apply(home, ws, j))
        invariant j > 0 ==> |Touched(ws, j - 1)| < LOGSIZE && |Touched(ws, j - 1)| < area.size - 1
      {
        ToSetSize(blocks);
        TouchedGrows(ws, j, |ws| - 1);
        HomeStep(area, cache.View(), home, ws, j);
        ok := Update(ws[j].blockno, ws[j].data);
        if !ok { return; }
        j := j + 1;
      }
    }
  }

  /** If the machine stops after k of commit's writes, the disk recovers to what it held
      before, or, once the header is down, to what the cache showed. */
  lemma StopInCommit(j: Journal, home: seq<Block>, k: nat)
    requires j.Valid() && Settled(j.area, j.cache.disk, home) && k <= |CommitTrace(j.area, j.cache.disk, j.Pending())|
    ensures var disk := Apply(j.cache.disk, CommitTrace(j.area, j.cache.disk, j.Pending()), k);
            var new' := Updated(home, j.Pending());
            HomeIs(j.area, j.cache.View(), new') && Committed(j.area, disk, if k <= |j.blocks| then home else new')
  {
    hide Apply, CommitTrace, Updated;
    var t := j.Pending();
    DurableIsView(j.area, j.cache.buf, j.cache.disk, home, t);
    if k <= |j.blocks| {
      CommitPrefixOld(j.area, j.cache.disk, home, t, k);
      SettledIsCommitted(j.area, Apply(j.cache.disk, CommitTrace(j.area, j.cache.disk, t), k), home);
    } else {
      CommitPrefixNew(j.area, j.cache.disk, home, t, k);
    }
  }

  /** initlog on a disk that a crash has left behind: an empty cache, and recovery. */
  method Restart(image: seq<Block>, a: Area, ghost home: seq<Block>) returns (j: Journal)
    requires Committed(a, image, home) && Xv6Format(a)
    ensures j.Valid() && j.blocks == [] && j.outstanding == 0 && j.area == a
    ensures Settled(a, j.cache.disk, home) && HomeIs(a, j.cache.View(), home)
  {
    hide Committed, Linked, Permutation, ByRelease;
    var cache := new Cache(image);
    j := new Journal(cache, a);
    j.RecoverFromLog(home);
    AllClean(j.cache.buf, j.cache.disk);
  }

  /** The blocks that the first n writes change. */
  ghost function Touched(ws: seq<Write>, n: nat): set<nat>
    requires n <= |ws|
  {
    if n == 0 then {} else Touched(ws, n - 1) + {ws[n - 1].blockno}
  }

  lemma NoneTouched(ws: seq<Write>, bs: seq<nat>)
    requires bs == []
    ensures ToSet(bs) == Touched(ws, 0)
  {
  }

  lemma {:induction false} TouchedGrows(ws: seq<Write>, j: nat, n: nat)
    requires j <= n <= |ws|
    ensures |Touched(ws, j)| <= |Touched(ws, n)|
  {
    if j < n {
      TouchedGrows(ws, j, n - 1);
      SubsetSize(Touched(ws, n - 1), Touched(ws, n));
    }
  }

  lemma HomeStep(a: Area, view: seq<Block>, home: seq<Block>, ws: seq<Write>, j: nat)
    requires j < |ws| && ws[j].blockno < |view| && HomeIs(a, view, Apply(home, ws, j))
    ensures HomeIs(a, view[ws[j].blockno := ws[j].data], Apply(home, ws, j + 1))
  {
  }

  /** With nothing dirty the cache shows the disk. */
  lemma AllClean(buf: seq<Buf>, disk: seq<Block>)
    requires BufsOk(buf, disk) && Idle(buf) && DirtySet(buf) == {}
    ensures Flat(buf, disk) == disk
  {
    forall b | 0 <= b < |disk| ensures Flat(buf, disk)[b] == disk[b] { CleanView(buf, disk, b); }
  }

  lemma StillFits(a: Area, n: nat, bs: seq<nat>, bs': seq<nat>, bn: nat)
    requires InRange(bs, n) && (forall i :: 0 <= i < |bs| ==> !InLog(a, bs[i])) && bn < n && !InLog(a, bn)
    requires ToSet(bs') == ToSet(bs) + {bn}
    ensures InRange(bs', n) && forall i :: 0 <= i < |bs'| ==> !InLog(a, bs'[i])
  {
    forall i | 0 <= i < |bs'| ensures bs'[i] < n && !InLog(a, bs'[i]) { assert bs'[i] in ToSet(bs'); }
  }

  lemma Pinned(buf: seq<Buf>, b: nat)
    requires b < |buf|
    ensures DirtySet(buf[b := buf[b].(dirty := true)]) == DirtySet(buf) + {buf[b].blockno}
  {
    var buf' := buf[b := buf[b].(dirty := true)];
    forall n | n in DirtySet(buf) ensures n in DirtySet(buf') {
      var i :| 0 <= i < |buf| && buf[i].dirty && buf[i].blockno == n;
      assert buf'[i].dirty && buf'[i].blockno == n;
    }
    assert buf'[b].dirty;
  }

  /** The contents commit makes durable are those the cache showed before it. */
  lemma DurableIsView(a: Area, buf: seq<Buf>, disk: seq<Block>, home: seq<Block>, t: Txn)
    requires BufsOk(buf, disk) && Idle(buf) && HomeIs(a, disk, home) && TxnOk(a, |disk|, t)
    requires DirtySet(buf) == ToSet(t.blocks)
             && forall i :: 0 <= i < |t.blocks| ==> t.data[i] == Flat(buf, disk)[t.blocks[i]]
    ensures HomeIs(a, Flat(buf, disk), Updated(home, t))
  {
    UpdatedAt(a, home, t);
    forall b | 0 <= b < |disk| && !InLog(a, b) ensures Flat(buf, disk)[b] == Updated(home, t)[b] {
      if b !in t.blocks { CleanView(buf, disk, b); }
    }
  }

  lemma Assoc<T>(x: seq<T>, y: seq<T>, z: seq<T>)
    ensures x + y + z == x + (y + z)
  {
  }

  lemma PrefixSnoc<T>(s: seq<T>, k: nat)
    requires k < |s|
    ensures s[..k+1] == s[..k] + [s[k]]
  {
  }

  lemma ToSetTail<T>(s: seq<T>)
    requires |s| > 0 && NoDup(s)
    ensures ToSet(s[1..]) == ToSet(s) - {s[0]}
  {
    forall x | x in ToSet(s) && x != s[0] ensures x in ToSet(s[1..]) {
      var i :| 0 <= i < |s| && s[i] == x;
      assert s[1..][i - 1] == x;
    }
  }
}
