/** The circular, doubly linked list of buffers, as two link arrays over buffer
    indices; index HEAD stands for `bcache.head`. */
module LruList {
  import opened Params

  const HEAD: nat := NBUF

  /** The list's node after i steps from the head; both ends are the head. */
  function At(order: seq<nat>, i: int): nat
    requires -1 <= i <= |order|
  {
    if 0 <= i < |order| then order[i] else HEAD
  }

  ghost predicate Distinct(order: seq<nat>) {
    && (forall i :: 0 <= i < |order| ==> order[i] < NBUF)
    && (forall i, j :: 0 <= i < j < |order| ==> order[i] != order[j])
  }

  /** Every buffer is on the list exactly once. */
  ghost predicate Permutation(order: seq<nat>) {
    && |order| == NBUF
    && Distinct(order)
    && (forall b: nat :: b < NBUF ==> b in order)
  }

  ghost function IndexOf(order: seq<nat>, b: nat): (k: nat)
    requires Permutation(order) && b < NBUF
    ensures k < NBUF && order[k] == b
  {
    assert b in order;
    var k :| 0 <= k < |order| && order[k] == b; k
  }

  /** Following `next` from the head walks `order`; `prev` walks it backwards. */
  ghost predicate Linked(next: seq<nat>, prev: seq<nat>, order: seq<nat>) {
    && |next| == |prev| == NBUF + 1
    && Distinct(order)
    && (forall i :: -1 <= i < |order| ==>
          next[At(order, i)] == At(order, i + 1) && prev[At(order, i + 1)] == At(order, i))
  }

  function Without(order: seq<nat>, k: nat): seq<nat>
    requires k < |order|
  {
    order[..k] + order[k+1..]
  }

  /** b->next->prev = b->prev; b->prev->next = b->next. */
  lemma UnlinkKeeps(next: seq<nat>, prev: seq<nat>, order: seq<nat>, k: nat)
    requires Linked(next, prev, order) && k < |order|
    ensures next[order[k]] <= HEAD && prev[order[k]] <= HEAD
    ensures Linked(next[prev[order[k]] := next[order[k]]], prev[next[order[k]] := prev[order[k]]], Without(order, k))
    ensures order[k] !in Without(order, k)
  {
    var b := order[k];
    assert next[At(order, k)] == At(order, k + 1) && prev[At(order, k + 1)] == At(order, k);
    assert next[At(order, k - 1)] == At(order, k - 1 + 1) && prev[At(order, k - 1 + 1)] == At(order, k - 1);
    var o' := Without(order, k);
    var next' := next[prev[b] := next[b]];
    var prev' := prev[next[b] := prev[b]];
    forall i | -1 <= i < |o'|
      ensures next'[At(o', i)] == At(o', i + 1) && prev'[At(o', i + 1)] == At(o', i)
    {
      if i < k - 1 {
        assert At(o', i) == At(order, i) && At(o', i + 1) == At(order, i + 1);
      } else if i == k - 1 {
        assert At(o', i) == At(order, i) && At(o', i + 1) == At(order, i + 2);
      } else {
        assert At(o', i) == At(order, i + 1) && At(o', i + 1) == At(order, i + 2);
        assert next[At(order, i + 1)] == At(order, i + 1 + 1);
      }
    }
  }

  /** b->next = head.next; b->prev = &head; head.next->prev = b; head.next = b. */
  lemma PushFrontKeeps(next: seq<nat>, prev: seq<nat>, order: seq<nat>, b: nat)
    requires Linked(next, prev, order) && b < NBUF && b !in order
    ensures next[HEAD] <= HEAD
    ensures Linked(next[b := next[HEAD]][HEAD := b], prev[b := HEAD][next[HEAD] := b], [b] + order)
  {
    assert next[At(order, -1)] == At(order, -1 + 1);
    var o' := [b] + order;
    var next' := next[b := next[HEAD]][HEAD := b];
    var prev' := prev[b := HEAD][next[HEAD] := b];
    forall i | -1 <= i < |o'|
      ensures next'[At(o', i)] == At(o', i + 1) && prev'[At(o', i + 1)] == At(o', i)
    {
      if i > 0 {
        assert At(o', i) == At(order, i - 1) && At(o', i + 1) == At(order, i);
        assert next[At(order, i - 1)] == At(order, i - 1 + 1) && prev[At(order, i - 1 + 1)] == At(order, i - 1);
      }
    }
  }
}

/** The buffer cache of bio.c over the in-memory disk of memide.c. A method is a stretch
    that no other process can come between, but for brelse, which gives up the buffer's
    sleep lock before it takes bcache.lock. */
module BufferCache {
  import opened Blocks
  import opened LruList
  import opened Params

  const ROOTDEV := 1

  datatype Buf = Buf(dev: nat, blockno: nat, valid: bool, dirty: bool, refcnt: nat, locked: bool, data: Block)

  /** One atomic disk write. */
  datatype Write = Write(blockno: nat, data: Block)

  predicate Caches(b: Buf, dev: nat, blockno: nat) {
    b.dev == dev && b.blockno == blockno
  }

  /** Unreferenced and not pinned by the log: may be recycled. */
  predicate Recyclable(b: Buf) {
    b.refcnt == 0 && !b.dirty
  }

  ghost predicate BufOk(b: Buf, disk: seq<Block>) {
    && (b.valid ==> b.dev == ROOTDEV && b.blockno < |disk|)
    && (b.dirty ==> b.valid)
    && (b.locked ==> b.refcnt > 0)
    && (b.valid && !b.dirty && !b.locked ==> b.data == disk[b.blockno])
  }

  ghost predicate SameBlock(buf: seq<Buf>, i: int, j: int)
    requires 0 <= i < |buf| && 0 <= j < |buf|
  {
    buf[i].dev != 0 && Caches(buf[j], buf[i].dev, buf[i].blockno)
  }

  /** No two buffers cache the same block (buffers never used have device 0). */
  ghost predicate Unique(buf: seq<Buf>) {
    forall i, j {:trigger SameBlock(buf, i, j)} :: 0 <= i < |buf| && 0 <= j < |buf| && i != j ==> !SameBlock(buf, i, j)
  }

  lemma UniqueKept(buf: seq<Buf>, b: nat, x: Buf)
    requires Unique(buf) && b < |buf|
    requires (x.dev == buf[b].dev && x.blockno == buf[b].blockno)
             || forall i :: 0 <= i < |buf| ==> !Caches(buf[i], x.dev, x.blockno)
    ensures Unique(buf[b := x])
  {
    var buf' := buf[b := x];
    forall i, j | 0 <= i < |buf| && 0 <= j < |buf| && i != j ensures !SameBlock(buf', i, j) {
      assert !SameBlock(buf, i, j);
    }
  }

  ghost predicate BufsOk(buf: seq<Buf>, disk: seq<Block>) {
    && |buf| == NBUF
    && Unique(buf)
    && (forall i :: 0 <= i < NBUF ==> BufOk(buf[i], disk))
  }

  ghost predicate Holds(buf: seq<Buf>, i: int, bn: nat) {
    0 <= i < |buf| && buf[i].valid && Caches(buf[i], ROOTDEV, bn)
  }

  ghost function Lookup(buf: seq<Buf>, disk: seq<Block>, bn: nat): Block
    requires bn < |disk|
  {
    if exists i :: Holds(buf, i, bn) then var i :| Holds(buf, i, bn); buf[i].data else disk[bn]
  }

  /** The flat map the cache stands for: cached contents where there are any. */
  ghost function Flat(buf: seq<Buf>, disk: seq<Block>): (f: seq<Block>)
    ensures |f| == |disk|
  {
    seq(|disk|, bn requires 0 <= bn < |disk| => Lookup(buf, disk, bn))
  }

  lemma LookupHeld(buf: seq<Buf>, disk: seq<Block>, i: int)
    requires Unique(buf) && 0 <= i < |buf| && buf[i].valid && buf[i].dev == ROOTDEV && buf[i].blockno < |disk|
    ensures Lookup(buf, disk, buf[i].blockno) == buf[i].data
  {
    assert Holds(buf, i, buf[i].blockno);
    forall j | Holds(buf, j, buf[i].blockno) ensures j == i {
      assert i != j ==> !SameBlock(buf, i, j);
    }
  }

  /** Reads of block bn are decided by whichever buffer holds it, if any. */
  lemma LookupSame(buf: seq<Buf>, disk: seq<Block>, buf': seq<Buf>, disk': seq<Block>, bn: nat, b: nat)
    requires |buf| == |buf'| && |disk| == |disk'| && bn < |disk| && b < |buf|
    requires Unique(buf) && Unique(buf')
    requires forall i :: 0 <= i < |buf| && i != b ==> buf[i] == buf'[i]
    requires !Holds(buf, b, bn) && !Holds(buf', b, bn)
    requires disk[bn] == disk'[bn]
    ensures Lookup(buf, disk, bn) == Lookup(buf', disk', bn)
  {
    if i :| Holds(buf, i, bn) {
      assert Holds(buf', i, bn);
      LookupHeld(buf, disk, i);
      LookupHeld(buf', disk', i);
    } else {
      forall i ensures !Holds(buf', i, bn) { assert !Holds(buf, i, bn); }
    }
  }

  /** Changing buffer b leaves the flat map as it was when b's old block, once
      b lets go of it, reads the same from disk, and b's new block is what it
      was too. */
  lemma FlatSame(buf: seq<Buf>, buf': seq<Buf>, disk: seq<Block>, b: nat)
    requires |buf| == |buf'| && b < |buf|
    requires Unique(buf) && Unique(buf')
    requires forall i :: 0 <= i < |buf| && i != b ==> buf[i] == buf'[i]
    requires buf[b].valid && buf[b].dev == ROOTDEV && buf[b].blockno < |disk| ==>
               if Holds(buf', b, buf[b].blockno) then buf'[b].data == buf[b].data
               else disk[buf[b].blockno] == buf[b].data
    requires buf'[b].valid && buf'[b].dev == ROOTDEV && buf'[b].blockno < |disk| ==>
               buf'[b].data == Lookup(buf, disk, buf'[b].blockno)
    ensures Flat(buf', disk) == Flat(buf, disk)
  {
    forall bn: nat | bn < |disk| ensures Lookup(buf', disk, bn) == Lookup(buf, disk, bn) {
      if Holds(buf', b, bn) {
        LookupHeld(buf', disk, b);
      } else if Holds(buf, b, bn) {
        LookupHeld(buf, disk, b);
        forall i ensures !Holds(buf', i, bn) { assert i != b && 0 <= i < |buf| ==> !SameBlock(buf, b, i); }
      } else {
        LookupSame(buf, disk, buf', disk, bn, b);
      }
    }
  }

  /** The list is sorted by the time of each buffer's last full release. */
  ghost predicate ByRelease(order: seq<nat>, stamp: seq<nat>, clock: nat) {
    && |stamp| == NBUF
    && Distinct(order)
    && (forall i :: 0 <= i < NBUF ==> stamp[i] < clock)
    && (forall i, j :: 0 <= i < j < |order| ==> stamp[order[i]] > stamp[order[j]])
  }

  class Cache {
    var buf: seq<Buf>
    var next: seq<nat>
    var prev: seq<nat>
    var disk: seq<Block>

    ghost var order: seq<nat>      // the list, most recently released first
    ghost var stamp: seq<nat>      // when each buffer was last fully released
    ghost var clock: nat
    ghost var trace: seq<Write>    // every disk write so far, in order

    ghost predicate Valid()
      reads this
    {
      && BufsOk(buf, disk)
      && Permutation(order)
      && Linked(next, prev, order)
      && ByRelease(order, stamp, clock)
    }

    ghost function View(): seq<Block>
      reads this
    {
      Flat(buf, disk)
    }

    ghost predicate Cached(dev: nat, blockno: nat)
      reads this
    {
      exists i :: 0 <= i < |buf| && Caches(buf[i], dev, blockno)
    }

    /** binit. */
    constructor (image: seq<Block>)
      ensures Valid() && disk == image && trace == [] && View() == image
      ensures forall i :: 0 <= i < NBUF ==> Recyclable(buf[i]) && !buf[i].locked && !buf[i].valid
    {
      var bs := seq(NBUF, _ => Buf(0, 0, false, false, 0, false, ZERO_BLOCK));
      assert Unique(bs);
      var nx: seq<nat> := seq(NBUF + 1, _ => HEAD);
      var pv: seq<nat> := seq(NBUF + 1, _ => HEAD);
      ghost var o: seq<nat> := [];
      var b := 0;
      while b < NBUF
        invariant 0 <= b <= NBUF
        invariant |o| == b && forall i :: 0 <= i < b ==> o[i] == b - 1 - i
        invariant Linked(nx, pv, o)
      {
        PushFrontKeeps(nx, pv, o, b);
        nx := nx[b := nx[HEAD]];
        pv := pv[b := HEAD];
        pv := pv[nx[HEAD] := b];
        nx := nx[HEAD := b];
        o := [b] + o;
        b := b + 1;
      }
      forall b: nat | b < NBUF ensures b in o { assert o[NBUF - 1 - b] == b; }
      buf, next, prev, disk := bs, nx, pv, image;
      order, stamp, clock, trace := o, seq(NBUF, i => i), NBUF, [];
      assert forall bn: nat :: bn < |image| ==> Lookup(bs, image, bn) == image[bn];
    }

    /** bget's first loop, forwards from the most recently used buffer. */
    method FindCached(dev: nat, blockno: nat) returns (b: nat)
      requires Valid()
      ensures b <= HEAD
      ensures b != HEAD ==> Caches(buf[b], dev, blockno)
      ensures b == HEAD ==> forall i :: 0 <= i < NBUF ==> !Caches(buf[i], dev, blockno)
    {
      b := next[HEAD];
      ghost var k := 0;
      assert At(order, -1) == HEAD && next[At(order, -1)] == At(order, -1 + 1);
      while b != HEAD && !Caches(buf[b], dev, blockno)
        invariant 0 <= k <= NBUF && b == At(order, k)
        invariant forall j :: 0 <= j < k ==> !Caches(buf[order[j]], dev, blockno)
        decreases NBUF - k
      {
        assert next[At(order, k)] == At(order, k + 1);
        b := next[b];
        k := k + 1;
      }
      if b == HEAD {
        forall i | 0 <= i < NBUF ensures !Caches(buf[i], dev, blockno) {
          var j := IndexOf(order, i);
        }
      }
    }

    /** bget's second loop, backwards from the least recently used buffer: the
        victim is the recyclable buffer released longest ago. */
    method FindVictim() returns (b: nat)
      requires Valid()
      ensures b <= HEAD
      ensures b != HEAD ==>
                Recyclable(buf[b]) && forall c :: 0 <= c < NBUF && Recyclable(buf[c]) ==> stamp[b] <= stamp[c]
      ensures b == HEAD ==> forall c :: 0 <= c < NBUF ==> !Recyclable(buf[c])
    {
      assert prev[At(order, NBUF - 1 + 1)] == At(order, NBUF - 1);
      b := prev[HEAD];
      ghost var k := NBUF - 1;
      while b != HEAD && !Recyclable(buf[b])
        invariant -1 <= k < NBUF && b == At(order, k)
        invariant forall j :: k < j < NBUF ==> !Recyclable(buf[order[j]])
        decreases k
      {
        assert prev[At(order, k - 1 + 1)] == At(order, k - 1);
        b := prev[b];
        k := k - 1;
      }
      forall c | 0 <= c < NBUF && Recyclable(buf[c]) ensures b != HEAD && stamp[b] <= stamp[c] {
        var j := IndexOf(order, c);
      }
    }

    /** bget up to the sleep lock: find the block's buffer or recycle one.
        No buffer to recycle is the panic "bget: no buffers". */
    method Bget(dev: nat, blockno: nat) returns (ok: bool, b: nat)
      requires Valid() && dev != 0
      modifies this`buf
      ensures Valid() && View() == old(View())
      ensures ok <==> old(Cached(dev, blockno)) || exists c :: 0 <= c < NBUF && Recyclable(old(buf[c]))
      ensures !ok ==> buf == old(buf)
      ensures ok ==> b < NBUF
      ensures ok && old(Cached(dev, blockno)) ==>
                Caches(old(buf[b]), dev, blockno)
                && buf == old(buf)[b := old(buf[b]).(refcnt := old(buf[b]).refcnt + 1)]
      ensures ok && !old(Cached(dev, blockno)) ==>
                && Recyclable(old(buf[b]))
                && (forall c :: 0 <= c < NBUF && Recyclable(old(buf[c])) ==> stamp[b] <= stamp[c])
                && var b' := old(buf[b]).(dev := dev, blockno := blockno, valid := false, dirty := false, refcnt := 1);
                && buf == old(buf)[b := b']
    {
      ok := true;
      b := FindCached(dev, blockno);
      if b != HEAD {
        buf := buf[b := buf[b].(refcnt := buf[b].refcnt + 1)];
        if buf[b].valid { LookupHeld(old(buf), disk, b); }
        UniqueKept(old(buf), b, buf[b]);
        FlatSame(old(buf), buf, disk, b);
        return;
      }
      b := FindVictim();
      if b != HEAD {
        buf := buf[b := buf[b].(dev := dev, blockno := blockno, valid := false, dirty := false, refcnt := 1)];
        UniqueKept(old(buf), b, buf[b]);
        FlatSame(old(buf), buf, disk, b);
        return;
      }
      ok := false;
    }

    /** The last step of acquiresleep(&b->lock). */
    method Lock(b: nat)
      requires Valid() && b < NBUF && !buf[b].locked && buf[b].refcnt > 0
      modifies this`buf
      ensures Valid() && View() == old(View())
      ensures buf == old(buf)[b := old(buf[b]).(locked := true)]
    {
      buf := buf[b := buf[b].(locked := true)];
      if buf[b].valid { LookupHeld(old(buf), disk, b); }
      UniqueKept(old(buf), b, buf[b]);
      FlatSame(old(buf), buf, disk, b);
    }

    /** iderw: write a dirty buffer out, or fill one not yet valid. */
    method Iderw(b: nat)
      requires Valid() && b < NBUF && buf[b].locked && (buf[b].dirty || !buf[b].valid)
      requires buf[b].dev == ROOTDEV && buf[b].blockno < |disk|
      modifies this`buf, this`disk, this`trace
      ensures Valid() && View() == old(View())
      ensures if old(buf[b]).dirty then
                && buf == old(buf)[b := old(buf[b]).(dirty := false)]
                && disk == old(disk)[old(buf[b]).blockno := old(buf[b]).data]
                && trace == old(trace) + [Write(old(buf[b]).blockno, old(buf[b]).data)]
              else
                && buf == old(buf)[b := old(buf[b]).(valid := true, data := disk[old(buf[b]).blockno])]
                && disk == old(disk) && trace == old(trace)
                && buf[b].data == View()[buf[b].blockno]
    {
      var bn := buf[b].blockno;
      if buf[b].dirty {
        disk := disk[bn := buf[b].data];
        buf := buf[b := buf[b].(dirty := false, valid := true)];
        UniqueKept(old(buf), b, buf[b]);
        forall i | 0 <= i < NBUF && i != b && buf[i].valid
          ensures buf[i].blockno != bn
        {
          assert !SameBlock(old(buf), b, i);
        }
        trace := trace + [Write(bn, buf[b].data)];
        forall n: nat | n < |disk| ensures Lookup(buf, disk, n) == Lookup(old(buf), old(disk), n) {
          if n == bn {
            LookupHeld(buf, disk, b);
            LookupHeld(old(buf), old(disk), b);
          } else {
            LookupSame(old(buf), old(disk), buf, disk, n, b);
          }
        }
      } else {
        forall i ensures !Holds(buf, i, bn) { assert i != b && 0 <= i < |buf| ==> !SameBlock(buf, b, i); }
        buf := buf[b := buf[b].(valid := true, data := disk[bn])];
        UniqueKept(old(buf), b, buf[b]);
        FlatSame(old(buf), buf, disk, b);
        LookupHeld(buf, disk, b);
      }
    }

    /** bread by a process that need not wait: the buffer, if cached, is unlocked. */
    method Bread(blockno: nat) returns (ok: bool, b: nat)
      requires Valid() && blockno < |disk|
      requires forall i :: 0 <= i < NBUF && Caches(buf[i], ROOTDEV, blockno) ==> !buf[i].locked
      modifies this`buf, this`disk, this`trace
      ensures Valid() && View() == old(View()) && disk == old(disk) && trace == old(trace)
      ensures ok <==> old(Cached(ROOTDEV, blockno)) || exists c :: 0 <= c < NBUF && Recyclable(old(buf[c]))
      ensures !ok ==> buf == old(buf)
      ensures ok ==> b < NBUF && Caches(buf[b], ROOTDEV, blockno) && buf[b].valid && buf[b].locked
      ensures ok ==> buf[b].data == View()[blockno]
      ensures ok ==>
                buf == old(buf)[b := buf[b]]
                && buf[b].refcnt == (if old(Cached(ROOTDEV, blockno)) then old(buf[b]).refcnt + 1 else 1)
      ensures ok ==> buf[b].dirty == old(buf[b]).dirty
      ensures ok && !old(Cached(ROOTDEV, blockno)) ==> Recyclable(old(buf[b]))
      ensures ok && old(Cached(ROOTDEV, blockno)) ==> Caches(old(buf[b]), ROOTDEV, blockno)
    {
      ok, b := Bget(ROOTDEV, blockno);
      if ok {
        Lock(b);
        if !buf[b].valid {
          Iderw(b);
        } else {
          LookupHeld(buf, disk, b);
        }
      }
    }

    /** memmove into a locked buffer's data. */
    method Store(b: nat, data: Block)
      requires Valid() && b < NBUF && buf[b].locked && buf[b].valid
      modifies this`buf
      ensures Valid() && old(buf[b]).blockno < |disk|
      ensures View() == old(View())[old(buf[b]).blockno := data]
      ensures buf == old(buf)[b := old(buf[b]).(data := data)]
    {
      buf := buf[b := buf[b].(data := data)];
      UniqueKept(old(buf), b, buf[b]);
      var bn := buf[b].blockno;
      forall n: nat | n < |disk| ensures Lookup(buf, disk, n) == if n == bn then data else Lookup(old(buf), disk, n) {
        if n == bn {
          LookupHeld(buf, disk, b);
        } else {
          LookupSame(old(buf), disk, buf, disk, n, b);
        }
      }
    }

    /** bwrite. */
    method Bwrite(b: nat)
      requires Valid() && b < NBUF && buf[b].locked && buf[b].valid
      modifies this`buf, this`disk, this`trace
      ensures Valid() && View() == old(View())
      ensures buf == old(buf)[b := old(buf[b]).(dirty := false)]
      ensures disk == old(disk)[buf[b].blockno := buf[b].data]
      ensures trace == old(trace) + [Write(buf[b].blockno, buf[b].data)]
    {
      Pin(b);
      Iderw(b);
    }

    /** b->flags |= B_DIRTY. */
    method Pin(b: nat)
      requires Valid() && b < NBUF && buf[b].locked && buf[b].valid
      modifies this`buf
      ensures Valid() && View() == old(View())
      ensures buf == old(buf)[b := old(buf[b]).(dirty := true)]
    {
      buf := buf[b := buf[b].(dirty := true)];
      LookupHeld(old(buf), disk, b);
      UniqueKept(old(buf), b, buf[b]);
      FlatSame(old(buf), buf, disk, b);
    }

    /** brelse, by a holder who logged or wrote out whatever it changed. */
    method Brelse(b: nat)
      requires Valid() && b < NBUF && buf[b].locked
      requires buf[b].valid && !buf[b].dirty ==> buf[b].data == disk[buf[b].blockno]
      modifies this`buf, this`next, this`prev, this`order, this`stamp, this`clock
      ensures Valid() && View() == old(View())
      ensures buf == old(buf)[b := old(buf[b]).(locked := false, refcnt := old(buf[b]).refcnt - 1)]
      ensures if old(buf[b]).refcnt == 1 then
                stamp == old(stamp)[b := old(clock)] && clock == old(clock) + 1
              else
                stamp == old(stamp) && clock == old(clock) && order == old(order)
    {
      buf := buf[b := buf[b].(locked := false, refcnt := buf[b].refcnt - 1)];
      if buf[b].valid { LookupHeld(old(buf), disk, b); }
      UniqueKept(old(buf), b, buf[b]);
      FlatSame(old(buf), buf, disk, b);
      if buf[b].refcnt == 0 { MoveToFront(b); }
    }

    /** Unlink b and insert it after the head. */
    method MoveToFront(b: nat)
      requires Valid() && b < NBUF
      modifies this`next, this`prev, this`order, this`stamp, this`clock
      ensures Valid() && order == [b] + Without(old(order), IndexOf(old(order), b))
      ensures stamp == old(stamp)[b := old(clock)] && clock == old(clock) + 1
    {
      ghost var k := IndexOf(order, b);
      ghost var rest := Without(order, k);
      UnlinkKeeps(next, prev, order, k);
      var nb, pb := next[b], prev[b];
      prev := prev[nb := pb];
      next := next[pb := nb];
      PushFrontKeeps(next, prev, rest, b);
      next := next[b := next[HEAD]];
      prev := prev[b := HEAD];
      prev := prev[next[HEAD] := b];
      next := next[HEAD := b];
      MovedToFront(order, k, stamp, clock);
      order := [b] + rest;
      stamp := stamp[b := clock];
      clock := clock + 1;
    }
  }

  /** Where the buffer at place j came from, when the one at k moved to the front. */
  function CameFrom(k: nat, j: nat): nat { if j == 0 then k else if j <= k then j - 1 else j }

  lemma MovedAt(order: seq<nat>, k: nat)
    requires k < |order|
    ensures var o' := [order[k]] + Without(order, k);
            |o'| == |order| && forall j :: 0 <= j < |o'| ==> o'[j] == order[CameFrom(k, j)]
  {
  }

  lemma MovedPermutation(order: seq<nat>, k: nat)
    requires Permutation(order) && k < NBUF
    ensures Permutation([order[k]] + Without(order, k))
  {
    hide Without;
    var o' := [order[k]] + Without(order, k);
    MovedAt(order, k);
    forall b: nat | b < NBUF ensures b in o' {
      var j := IndexOf(order, b);
      var i := if j < k then j + 1 else if j == k then 0 else j;
      assert o'[i] == order[CameFrom(k, i)] == b;
    }
  }

  /** Releasing moves a buffer to the front and keeps the order by release. */
  lemma MovedToFront(order: seq<nat>, k: nat, stamp: seq<nat>, clock: nat)
    requires Permutation(order) && k < NBUF && ByRelease(order, stamp, clock)
    ensures Permutation([order[k]] + Without(order, k))
    ensures ByRelease([order[k]] + Without(order, k), stamp[order[k] := clock], clock + 1)
  {
    hide Without;
    var o', stamp' := [order[k]] + Without(order, k), stamp[order[k] := clock];
    MovedPermutation(order, k);
    MovedAt(order, k);
    forall i, j | 0 <= i < j < |o'| ensures stamp'[o'[i]] > stamp'[o'[j]] {
      var i0, j0 := CameFrom(k, i), CameFrom(k, j);
      assert o'[i] == order[i0] && o'[j] == order[j0] && j0 != k;
    }
  }
}
