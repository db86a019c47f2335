/** Pipes (pipe.c). A call runs in stretches under p->lock; it gives the lock up
    only when it sleeps. Queue is what a stretch does to the bytes in order; Ring
    is the source's buffer of PIPESIZE bytes with two 32-bit counters. */
module Pipe {
  const PIPESIZE: nat := 512
  const WRAP: nat := 0x1_0000_0000

  type Byte = nat

  /** Everything written so far, how much of it has been read, which ends are open,
      who sleeps on &p->nread and on &p->nwrite, and how many bytes have been added
      since readers were last woken. */
  datatype Queue = Queue(log: seq<Byte>, read: nat, readopen: bool, writeopen: bool, readers: set<nat>,
                         writers: set<nat>, quiet: nat)

  const EMPTY := Queue([], 0, true, true, {}, {}, 0)

  /** How a stretch of a call ends: it returns, it returns -1, or it sleeps. */
  datatype End = Done | Failed | Asleep

  predicate Bounded(q: Queue) { q.read <= |q.log| <= q.read + PIPESIZE }

  function Min(a: int, b: int): int { if a < b then a else b }

  /** wakeup(&p->nread). */
  function WakeReaders(q: Queue): Queue { q.(readers := {}, quiet := 0) }

  /** wakeup(&p->nwrite). */
  function WakeWriters(q: Queue): Queue { q.(writers := {}) }

  /** How far pipewrite gets with n bytes of which i are written. */
  function WriteTo(q: Queue, n: nat, i: nat): (j: nat)
    requires Bounded(q) && i <= n
    ensures i <= j <= n
  {
    Min(n, i + q.read + PIPESIZE - |q.log|)
  }

  function WriteEnd(q: Queue, n: nat, i: nat, killed: bool): End
    requires Bounded(q) && i <= n
  {
    if WriteTo(q, n, i) == n then Done else if !q.readopen || killed then Failed else Asleep
  }

  function Appended(q: Queue, more: seq<Byte>): Queue { q.(log := q.log + more, quiet := q.quiet + |more|) }

  /** A stretch of pipewrite by me. */
  function Written(q: Queue, addr: seq<Byte>, i: nat, killed: bool, me: nat): (r: Queue)
    requires Bounded(q) && i <= |addr|
    ensures Bounded(r)
  {
    var q' := Appended(q, addr[i..WriteTo(q, |addr|, i)]);
    match WriteEnd(q, |addr|, i, killed)
    case Done => WakeReaders(q')
    case Failed => q'
    case Asleep => WakeReaders(q').(writers := q.writers + {me})
  }

  /** The bytes that a read of n gets. */
  function Available(q: Queue, n: nat): seq<Byte>
    requires Bounded(q)
  {
    q.log[q.read..Min(|q.log|, q.read + n)]
  }

  function ReadEnd(q: Queue, killed: bool): End {
    if q.read == |q.log| && q.writeopen then (if killed then Failed else Asleep) else Done
  }

  /** A stretch of piperead by me. */
  function ReadOff(q: Queue, n: nat, killed: bool, me: nat): (r: Queue)
    requires Bounded(q)
    ensures Bounded(r)
  {
    match ReadEnd(q, killed)
    case Done => WakeWriters(q.(read := q.read + |Available(q, n)|))
    case Failed => q
    case Asleep => q.(readers := q.readers + {me})
  }

  function Closed(q: Queue, writable: bool): Queue {
    if writable then WakeReaders(q.(writeopen := false)) else WakeWriters(q.(readopen := false))
  }

  // ---- the ring ----

  /** The counters and the buffer hold the queue. */
  ghost predicate Holds(data: seq<Byte>, nread: nat, nwrite: nat, log: seq<Byte>, read: nat) {
    && |data| == PIPESIZE && nread == read % WRAP && nwrite == |log| % WRAP
    && read <= |log| <= read + PIPESIZE
    && forall k :: read <= k < |log| ==> data[k % PIPESIZE] == log[k]
  }

  lemma PlaceKept(x: nat)
    ensures x % WRAP % PIPESIZE == x % PIPESIZE
  {
    var q := x / WRAP;
    assert x % WRAP == x - PIPESIZE * (8388608 * q);
  }

  lemma WrapAdd(x: nat, k: nat)
    requires k <= PIPESIZE
    ensures (x % WRAP + k) % WRAP == (x + k) % WRAP && ((x + k) % WRAP == x % WRAP <==> k == 0)
  {
    var q, r := x / WRAP, x % WRAP;
    assert x == q * WRAP + r;
    if r + k < WRAP {
      assert (x + k) / WRAP == q;
    } else {
      assert (x + k) / WRAP == q + 1;
    }
  }

  /** 512 divides 2^32, so the counters may wrap; and they meet only when the
      pipe is empty or full. */
  lemma Counters(read: nat, written: nat)
    requires read <= written <= read + PIPESIZE
    ensures written % WRAP % PIPESIZE == written % PIPESIZE && read % WRAP % PIPESIZE == read % PIPESIZE
    ensures written % WRAP == read % WRAP <==> written == read
    ensures written % WRAP == (read % WRAP + PIPESIZE) % WRAP <==> written == read + PIPESIZE
    ensures (written % WRAP + 1) % WRAP == (written + 1) % WRAP && (read % WRAP + 1) % WRAP == (read + 1) % WRAP
  {
    PlaceKept(written);
    PlaceKept(read);
    WrapAdd(read, written - read);
    WrapAdd(read, PIPESIZE);
    WrapAdd(written, read + PIPESIZE - written);
    WrapAdd(written, 1);
    WrapAdd(read, 1);
  }

  /** Different bytes in the pipe are in different places. */
  lemma Places(j: nat, k: nat)
    requires j < k < j + PIPESIZE
    ensures j % PIPESIZE != k % PIPESIZE
  {
  }

  /** pipewrite's loop ends at the end of the bytes or of the room. */
  lemma WroteTo(q: Queue, addr: seq<Byte>, start: nat, i: nat)
    requires Bounded(q) && start <= i <= |addr| && |q.log| + i - start <= q.read + PIPESIZE
    requires i == |addr| || |q.log| + i - start == q.read + PIPESIZE
    ensures i == WriteTo(q, |addr|, start)
  {
  }

  class Ring {
    var data: array<Byte>
    var nread: nat
    var nwrite: nat
    var readopen: bool
    var writeopen: bool
    var readers: set<nat>
    var writers: set<nat>
    ghost var log: seq<Byte>
    ghost var read: nat
    ghost var quiet: nat

    ghost predicate Valid() reads this, data {
      data.Length == PIPESIZE && Holds(data[..], nread, nwrite, log, read)
    }

    ghost function Q(): Queue reads this { Queue(log, read, readopen, writeopen, readers, writers, quiet) }

    /** pipealloc. */
    constructor ()
      ensures Valid() && fresh(data) && Q() == EMPTY
    {
      data := new Byte[PIPESIZE];
      nread, nwrite, readopen, writeopen := 0, 0, true, true;
      readers, writers := {}, {};
      log, read, quiet := [], 0, 0;
    }

    method WakeupRead()
      modifies this`readers, this`quiet
      ensures Q() == WakeReaders(old(Q()))
    {
      readers, quiet := {}, 0;
    }

    method WakeupWrite()
      modifies this`writers
      ensures Q() == WakeWriters(old(Q()))
    {
      writers := {};
    }

    /** pipeclose: true when both ends are closed and the pipe goes away. */
    method Close(writable: bool) returns (gone: bool)
      requires Valid()
      modifies this
      ensures Valid() && data == old(data) && data[..] == old(data[..]) && Q() == Closed(old(Q()), writable)
      ensures if writable then !writeopen && readers == {} && readopen == old(readopen) && writers == old(writers)
              else !readopen && writers == {} && writeopen == old(writeopen) && readers == old(readers)
      ensures gone <==> !readopen && !writeopen
    {
      if writable {
        writeopen := false;
        WakeupRead();
      } else {
        readopen := false;
        WakeupWrite();
      }
      gone := !readopen && !writeopen;
    }

    /** pipewrite by process me, from where it holds the lock with start bytes
        written. It leaves bytes that no reader is told of if and only if it fails
        after adding some. */
    method Write(addr: seq<Byte>, start: nat, killed: bool, me: nat) returns (i: nat, end: End)
      requires Valid() && start <= |addr|
      modifies this, data
      ensures Valid() && data == old(data) && Q() == Written(old(Q()), addr, start, killed, me)
      ensures i == WriteTo(old(Q()), |addr|, start) && end == WriteEnd(old(Q()), |addr|, start, killed)
      ensures start <= i <= |addr| && log == old(log) + addr[start..i] && read == old(read)
      ensures end == Done <==> i == |addr|
      ensures end != Done ==> |log| == read + PIPESIZE && (end == Failed <==> !readopen || killed)
      ensures if end == Failed then readers == old(readers) else readers == {}
      ensures writers == if end == Asleep then old(writers) + {me} else old(writers)
      ensures old(quiet) == 0 ==> (quiet > 0 <==> end == Failed && i > start)
    {
      hide Holds;
      ghost var q := Q();
      i := start;
      var full := Full();
      while i < |addr| && !full
        invariant Valid() && data == old(data) && start <= i <= |addr|
        invariant Bounded(q) && Bounded(Q()) && (full <==> |log| == read + PIPESIZE)
        invariant Q() == Appended(q, addr[start..i])
      {
        PutByte(addr[i]);
        i := i + 1;
        assert addr[start..i] == addr[start..i - 1] + [addr[i - 1]];
        full := Full();
      }
      WroteTo(q, addr, start, i);
      if i < |addr| && (!readopen || killed) {
        return i, Failed;
      }
      WakeupRead();
      if i < |addr| {
        writers := writers + {me};
        return i, Asleep;
      }
      return i, Done;
    }

    method Full() returns (f: bool)
      requires Valid()
      ensures Bounded(Q()) && (f <==> |log| == read + PIPESIZE)
    {
      Counters(read, |log|);
      return nwrite == (nread + PIPESIZE) % WRAP;
    }

    method PutByte(b: Byte)
      requires Valid() && |log| < read + PIPESIZE
      modifies this, data
      ensures Valid() && data == old(data) && Q() == Appended(old(Q()), [b])
    {
      Counters(read, |log|);
      forall k | read <= k < |log| ensures k % PIPESIZE != |log| % PIPESIZE {
        Places(k, |log|);
      }
      data[nwrite % PIPESIZE] := b;
      nwrite := (nwrite + 1) % WRAP;
      log, quiet := log + [b], quiet + 1;
    }

    /** piperead by process me, from where it holds the lock. */
    method Read(n: nat, killed: bool, me: nat) returns (got: seq<Byte>, end: End)
      requires Valid()
      modifies this
      ensures Valid() && data == old(data) && data[..] == old(data[..]) && Q() == ReadOff(old(Q()), n, killed, me)
      ensures end == ReadEnd(old(Q()), killed) && got == if end == Done then Available(old(Q()), n) else []
      ensures log == old(log) && old(read) <= read <= |log| && got == log[old(read)..read] && |got| <= n
      ensures end == Done ==> (|got| == n || read == |log|) && writers == {} && readers == old(readers)
      ensures end != Done ==> read == |log| && writeopen && (end == Failed <==> killed) && writers == old(writers)
      ensures end == Done || end == Failed || readers == old(readers) + {me}
      ensures end == Done <==> old(read) < |log| || !writeopen
    {
      var none := Empty();
      if none && writeopen {
        if killed {
          return [], Failed;
        }
        readers := readers + {me};
        return [], Asleep;
      }
      got := Copy(n);
      WakeupWrite();
      return got, Done;
    }

    /** piperead's copying loop. */
    method Copy(n: nat) returns (got: seq<Byte>)
      requires Valid()
      modifies this`nread, this`read
      ensures Valid() && got == Available(old(Q()), n) && Q() == old(Q()).(read := old(read) + |got|)
    {
      hide Holds;
      var none := Empty();
      got := [];
      while |got| < n && !none
        invariant Valid() && read <= |log| && (none <==> read == |log|)
        invariant |got| <= n && Q() == old(Q()).(read := old(read) + |got|) && got == log[old(read)..read]
        decreases |log| - read
      {
        var b := GetByte();
        assert log[old(read)..read] == log[old(read)..read - 1] + [log[read - 1]];
        got := got + [b];
        none := Empty();
      }
    }

    method Empty() returns (e: bool)
      requires Valid()
      ensures read <= |log| && (e <==> read == |log|)
    {
      Counters(read, |log|);
      return nread == nwrite;
    }

    method GetByte() returns (b: Byte)
      requires Valid() && read < |log|
      modifies this`nread, this`read
      ensures Valid() && Q() == old(Q()).(read := old(read) + 1) && b == log[old(read)]
    {
      Counters(read, read);
      b := data[nread % PIPESIZE];
      nread, read := (nread + 1) % WRAP, read + 1;
    }
  }

  // ---- any number of readers and writers ----

  /** A call of pipewrite: its bytes, how many are in, whether it is over, and whether
      its process has been killed. */
  datatype Writer = Writer(addr: seq<Byte>, i: nat, over: bool, killed: bool)

  datatype Reader = Reader(n: nat, over: bool, killed: bool)

  /** who tells who wrote each byte; taken is all that readers have got, in order. */
  datatype State = State(q: Queue, writers: seq<Writer>, readers: seq<Reader>, who: seq<nat>, taken: seq<Byte>)

  datatype Action =
    | CallWrite(addr: seq<Byte>)
    | CallRead(n: nat)
    | Write(w: nat)
    | Read(r: nat)
    | Close(writable: bool)
    | KillWriter(w: nat)
    | KillReader(r: nat)

  /** A call goes on when it is not over and its process is awake. Its process has its
      end of the pipe open, so that an end is closed when no call is under way there. */
  predicate Enabled(s: State, a: Action) {
    match a
    case CallWrite(_) => s.q.writeopen
    case CallRead(_) => s.q.readopen
    case Close(writable) =>
      if writable then forall w :: 0 <= w < |s.writers| ==> s.writers[w].over
      else forall r :: 0 <= r < |s.readers| ==> s.readers[r].over
    case Write(w) => w < |s.writers| && !s.writers[w].over && w !in s.q.writers && s.writers[w].i <= |s.writers[w].addr|
    case Read(r) => r < |s.readers| && !s.readers[r].over && r !in s.q.readers
    case KillWriter(w) => w < |s.writers|
    case KillReader(r) => r < |s.readers|
  }

  function Apply(s: State, a: Action): State
    requires Bounded(s.q) && Enabled(s, a)
  {
    match a
    case CallWrite(addr) => s.(writers := s.writers + [Writer(addr, 0, false, false)])
    case CallRead(n) => s.(readers := s.readers + [Reader(n, false, false)])
    case Write(w) =>
      var x := s.writers[w];
      var j := WriteTo(s.q, |x.addr|, x.i);
      s.(q := Written(s.q, x.addr, x.i, x.killed, w),
         writers := s.writers[w := x.(i := j, over := WriteEnd(s.q, |x.addr|, x.i, x.killed) != Asleep)],
         who := s.who + seq(j - x.i, _ => w))
    case Read(r) =>
      var x := s.readers[r];
      var end := ReadEnd(s.q, x.killed);
      s.(q := ReadOff(s.q, x.n, x.killed, r), readers := s.readers[r := x.(over := end != Asleep)],
         taken := s.taken + if end == Done then Available(s.q, x.n) else [])
    case Close(writable) => s.(q := Closed(s.q, writable))
    case KillWriter(w) =>
      s.(writers := s.writers[w := s.writers[w].(killed := true)], q := s.q.(writers := s.q.writers - {w}))
    case KillReader(r) =>
      s.(readers := s.readers[r := s.readers[r].(killed := true)], q := s.q.(readers := s.q.readers - {r}))
  }

  /** What writer w has put among the first k bytes. */
  function From(log: seq<Byte>, who: seq<nat>, w: nat, k: nat): seq<Byte>
    requires k <= |log| == |who|
  {
    if k == 0 then [] else From(log, who, w, k - 1) + if who[k - 1] == w then [log[k - 1]] else []
  }

  lemma {:induction false} FromPrefix(log: seq<Byte>, who: seq<nat>, more: seq<Byte>, who': seq<nat>, w: nat, k: nat)
    requires k <= |log| == |who| && |more| == |who'|
    ensures From(log + more, who + who', w, k) == From(log, who, w, k)
  {
    if k > 0 { FromPrefix(log, who, more, who', w, k - 1); }
  }

  lemma FromLast(log: seq<Byte>, who: seq<nat>, w: nat, k: nat)
    requires 0 < k <= |log| == |who|
    ensures From(log, who, w, k)
            == if who[k - 1] == w then From(log, who, w, k - 1) + [log[k - 1]] else From(log, who, w, k - 1)
  {
  }

  lemma Snoc(a: seq<Byte>, more: seq<Byte>, k: nat)
    requires 0 < k <= |more|
    ensures a + more[..k - 1] + [more[k - 1]] == a + more[..k] && a + [] == a
  {
  }

  lemma {:induction false} FromMore(log: seq<Byte>, who: seq<nat>, more: seq<Byte>, v: nat, w: nat, k: nat)
    requires |log| == |who| && k <= |more|
    ensures From(log + more, who + seq(|more|, _ => v), w, |log| + k)
            == From(log, who, w, |log|) + if v == w then more[..k] else []
  {
    hide From;
    var who' := seq(|more|, _ => v);
    if k == 0 {
      FromPrefix(log, who, more, who', w, |log|);
      assert From(log, who, w, |log|) + [] == From(log, who, w, |log|);
    } else {
      FromMore(log, who, more, v, w, k - 1);
      FromLast(log + more, who + who', w, |log| + k);
      assert (who + who')[|log| + k - 1] == v && (log + more)[|log| + k - 1] == more[k - 1];
      Snoc(From(log, who, w, |log|), more, k);
    }
  }

  /** Writers sleep only on a full pipe, never beside a reader; the bytes that a
      sleeping reader leaves are those it was not told of. */
  predicate SleepOk(q: Queue) {
    && (q.writers != {} ==> |q.log| == q.read + PIPESIZE && q.readopen && q.readers == {})
    && (q.readers != {} ==> q.writeopen && |q.log| - q.read <= q.quiet)
  }

  /** Those asleep are in a call, and a call keeps its end open. */
  ghost predicate CallsOk(s: State) {
    && (forall r :: r in s.q.readers ==> r < |s.readers| && !s.readers[r].over)
    && (forall r :: 0 <= r < |s.readers| && !s.readers[r].over ==> s.q.readopen)
    && (forall w :: w in s.q.writers ==> w < |s.writers| && !s.writers[w].over)
    && (forall w :: 0 <= w < |s.writers| && !s.writers[w].over ==> s.q.writeopen)
  }

  ghost predicate Inv(s: State) {
    && Bounded(s.q) && SleepOk(s.q) && CallsOk(s) && |s.who| == |s.q.log| && s.taken == s.q.log[..s.q.read]
    && (forall k :: 0 <= k < |s.who| ==> s.who[k] < |s.writers|)
    && forall w :: 0 <= w < |s.writers| ==> WriterOk(s, w)
  }

  predicate WriterOk(s: State, w: nat)
    requires |s.who| == |s.q.log| && w < |s.writers|
  {
    var x := s.writers[w];
    x.i <= |x.addr| && From(s.q.log, s.who, w, |s.q.log|) == x.addr[..x.i]
  }

  lemma {:induction false} FromNone(log: seq<Byte>, who: seq<nat>, w: nat, k: nat)
    requires k <= |log| == |who| && forall j :: 0 <= j < k ==> who[j] != w
    ensures From(log, who, w, k) == []
  {
    if k > 0 { FromNone(log, who, w, k - 1); }
  }

  lemma CallKeeps(s: State, addr: seq<Byte>)
    requires Inv(s) && Enabled(s, CallWrite(addr))
    ensures Inv(Apply(s, CallWrite(addr)))
  {
    var s' := Apply(s, CallWrite(addr));
    CallsKept(s, CallWrite(addr));
    FromNone(s.q.log, s.who, |s.writers|, |s.q.log|);
    forall w | 0 <= w < |s'.writers| ensures WriterOk(s', w) {
      assert w < |s.writers| ==> WriterOk(s, w);
    }
  }

  lemma CallsKept(s: State, a: Action)
    requires CallsOk(s) && Bounded(s.q) && Enabled(s, a)
    ensures CallsOk(Apply(s, a))
  {
  }

  lemma WriteSleeps(q: Queue, addr: seq<Byte>, i: nat, killed: bool, me: nat)
    requires Bounded(q) && SleepOk(q) && i <= |addr|
    ensures SleepOk(Written(q, addr, i, killed, me))
  {
  }

  lemma WriterKept(s: State, v: nat, w: nat)
    requires Inv(s) && Enabled(s, Write(v)) && w < |s.writers|
    ensures var s' := Apply(s, Write(v)); |s'.writers| == |s.writers| && |s'.who| == |s'.q.log| && WriterOk(s', w)
  {
    hide SleepOk;
    var s', x := Apply(s, Write(v)), s.writers[v];
    var more := x.addr[x.i..s'.writers[v].i];
    assert WriterOk(s, w);
    FromMore(s.q.log, s.who, more, v, w, |more|);
    assert x.addr[..x.i] + more == x.addr[..s'.writers[v].i];
  }

  lemma WriteKeeps(s: State, v: nat)
    requires Inv(s) && Enabled(s, Write(v))
    ensures Inv(Apply(s, Write(v)))
  {
    hide SleepOk, WriterOk, CallsOk;
    var s', x := Apply(s, Write(v)), s.writers[v];
    CallsKept(s, Write(v));
    WriteSleeps(s.q, x.addr, x.i, x.killed, v);
    forall w | 0 <= w < |s'.writers| ensures WriterOk(s', w) {
      WriterKept(s, v, w);
    }
  }

  lemma InvKept(s: State, a: Action)
    requires Inv(s) && Enabled(s, a)
    ensures Inv(Apply(s, a))
  {
    match a
    case CallWrite(addr) => CallKeeps(s, addr);
    case Write(v) => WriteKeeps(s, v);
    case _ =>
      var s' := Apply(s, a);
      CallsKept(s, a);
      forall w | 0 <= w < |s'.writers| ensures WriterOk(s', w) {
        assert WriterOk(s, w);
      }
  }

  const START := State(EMPTY, [], [], [], [])

  ghost predicate IsRun(states: seq<State>, acts: seq<Action>) {
    && |states| == |acts| + 1 && states[0] == START
    && forall i :: 0 <= i < |acts| ==>
         Bounded(states[i].q) && Enabled(states[i], acts[i]) && states[i + 1] == Apply(states[i], acts[i])
  }

  lemma {:induction false} RunInv(states: seq<State>, acts: seq<Action>, i: nat)
    requires IsRun(states, acts) && i < |states|
    ensures Inv(states[i])
  {
    hide Inv, Apply, Enabled;
    if i == 0 {
      StartInv();
    } else {
      RunInv(states, acts, i - 1);
      InvKept(states[i - 1], acts[i - 1]);
    }
  }

  lemma StartInv()
    ensures Inv(START)
  {
  }

  /** However readers and writers interleave, what has been read is a prefix of
      what has been written, at most PIPESIZE bytes are in between, and each
      writer's bytes are there in its order, none lost or repeated. */
  lemma Fifo(states: seq<State>, acts: seq<Action>, i: nat)
    requires IsRun(states, acts) && i < |states|
    ensures var s := states[i];
            && s.taken <= s.q.log && |s.q.log| - |s.taken| <= PIPESIZE && |s.who| == |s.q.log|
            && forall w :: 0 <= w < |s.writers| ==>
                 s.writers[w].i <= |s.writers[w].addr|
                 && From(s.q.log, s.who, w, |s.q.log|) == s.writers[w].addr[..s.writers[w].i]
  {
    hide Apply, Enabled;
    RunInv(states, acts, i);
    var s := states[i];
    forall w | 0 <= w < |s.writers|
      ensures s.writers[w].i <= |s.writers[w].addr|
              && From(s.q.log, s.who, w, |s.q.log|) == s.writers[w].addr[..s.writers[w].i]
    {
      assert WriterOk(s, w);
    }
  }

  /** A read of n > 0 bytes returns 0 if and only if nothing is left and the write
      end is closed. */
  lemma EndOfFile(q: Queue, n: nat, killed: bool)
    requires Bounded(q) && n > 0
    ensures ReadEnd(q, killed) == Done && Available(q, n) == [] <==> q.read == |q.log| && !q.writeopen
  {
    if q.read < |q.log| { assert |Available(q, n)| > 0; }
  }

  lemma OpenStep(s: State, a: Action)
    requires Bounded(s.q) && Enabled(s, a)
    ensures var q, q' := s.q, Apply(s, a).q;
            && (q'.writeopen <==> q.writeopen && a != Close(true)) && (q'.readopen <==> q.readopen && a != Close(false))
  {
    hide Available, WriteTo;
  }

  /** In every run an end is open if and only if it has not been closed. */
  lemma {:induction false} OpenIff(states: seq<State>, acts: seq<Action>, k: nat)
    requires IsRun(states, acts) && k < |states|
    ensures states[k].q.writeopen <==> Close(true) !in acts[..k]
    ensures states[k].q.readopen <==> Close(false) !in acts[..k]
  {
    hide Apply, Enabled;
    if k > 0 {
      OpenIff(states, acts, k - 1);
      OpenStep(states[k - 1], acts[k - 1]);
      assert acts[..k] == acts[..k - 1] + [acts[k - 1]];
    }
  }

  lemma KilledStep(s: State, a: Action, x: nat)
    requires Bounded(s.q) && Enabled(s, a)
    requires x < |s.writers| && s.writers[x].killed ==> x !in s.q.writers
    requires x < |s.readers| && s.readers[x].killed ==> x !in s.q.readers
    ensures var s' := Apply(s, a);
            && |s.writers| <= |s'.writers| && |s.readers| <= |s'.readers|
            && (x < |s'.writers| ==>
                  (s'.writers[x].killed <==> (x < |s.writers| && s.writers[x].killed) || a == KillWriter(x)))
            && (x < |s'.readers| ==>
                  (s'.readers[x].killed <==> (x < |s.readers| && s.readers[x].killed) || a == KillReader(x)))
            && (x < |s'.writers| && s'.writers[x].killed ==> x !in s'.q.writers)
            && (x < |s'.readers| && s'.readers[x].killed ==> x !in s'.q.readers)
  {
    hide Available, WriteTo;
  }

  /** A call is marked if and only if its process has been killed since it began, and then
      it does not sleep. */
  lemma {:induction false} KilledIff(states: seq<State>, acts: seq<Action>, k: nat, x: nat)
    requires IsRun(states, acts) && k < |states|
    ensures var s := states[k];
            && (x < |s.writers| ==> (s.writers[x].killed <==> KillWriter(x) in acts[..k]))
            && (x < |s.readers| ==> (s.readers[x].killed <==> KillReader(x) in acts[..k]))
            && (KillWriter(x) in acts[..k] ==> x < |s.writers| && x !in s.q.writers)
            && (KillReader(x) in acts[..k] ==> x < |s.readers| && x !in s.q.readers)
  {
    hide Apply;
    if k > 0 {
      KilledIff(states, acts, k - 1, x);
      KilledStep(states[k - 1], acts[k - 1], x);
      assert acts[..k] == acts[..k - 1] + [acts[k - 1]];
    }
  }

  /** A call that begins has its first step ahead of it. */
  lemma CallsBegin(states: seq<State>, acts: seq<Action>, k: nat)
    requires IsRun(states, acts) && k < |acts|
    ensures var s, s' := states[k], states[k + 1];
            && (acts[k].CallWrite? ==>
                  && |s'.writers| == |s.writers| + 1 && s'.writers[|s.writers|].addr == acts[k].addr
                  && s'.writers[|s.writers|].i == 0 && Enabled(s', Write(|s.writers|)))
            && (acts[k].CallRead? ==>
                  && |s'.readers| == |s.readers| + 1 && s'.readers[|s.readers|].n == acts[k].n
                  && Enabled(s', Read(|s.readers|)))
  {
    RunInv(states, acts, k);
  }

  /** A read in a run: with nothing there and the pipe open for writing it sleeps, or fails if
      its process was killed; else it is over, it has the next bytes in order, and it has all
      it asked for or has drained the pipe, and the writers are awake. */
  lemma ReadTakes(states: seq<State>, acts: seq<Action>, k: nat)
    requires IsRun(states, acts) && k < |acts| && acts[k].Read?
    ensures var s, s', r := states[k], states[k + 1], acts[k].r;
            && r < |s.readers| == |s'.readers| && s'.q.log == s.q.log && s.taken <= s'.taken
            && var x, got := s.readers[r], s'.taken[|s.taken|..];
            && s.q.read <= s'.q.read <= |s.q.log| && got == s.q.log[s.q.read..s'.q.read]
            && if s.q.read == |s.q.log| && s.q.writeopen then
                 got == [] && (s'.readers[r].over <==> x.killed) && (r in s'.q.readers <==> !x.killed)
               else
                 && s'.readers[r].over && |got| <= x.n && (|got| == x.n || s'.q.read == |s.q.log|)
                 && s'.q.writers == {} && s'.q.readers == s.q.readers
  {
    RunInv(states, acts, k);
    var s, s' := states[k], states[k + 1];
    assert s'.taken[|s.taken|..] == s.q.log[s.q.read..s'.q.read];
  }

  /** A write in a run: it adds its next bytes, all of them, or as many as make the pipe full;
      then it fails if nobody can read or its process was killed, and else it sleeps. Unless
      it fails the readers are awake. */
  lemma WriteAdds(states: seq<State>, acts: seq<Action>, k: nat)
    requires IsRun(states, acts) && k < |acts| && acts[k].Write?
    ensures var s, s', w := states[k], states[k + 1], acts[k].w;
            && w < |s.writers| == |s'.writers| && s'.q.read == s.q.read
            && var x, x' := s.writers[w], s'.writers[w];
            && x.i <= x'.i <= |x.addr| && s'.q.log == s.q.log + x.addr[x.i..x'.i]
            && if x'.i == |x.addr| then x'.over && s'.q.readers == {}
               else
                 && |s'.q.log| == s.q.read + PIPESIZE && (x'.over <==> !s.q.readopen || x.killed)
                 && (!x'.over ==> w in s'.q.writers && s'.q.readers == {})
  {
    RunInv(states, acts, k);
  }

  // ---- readers that are not woken ----

  /** Readers and writers are never asleep together, and no writer sleeps on a pipe
      that has room or that nobody reads. */
  lemma WritersSleepRight(states: seq<State>, acts: seq<Action>, i: nat)
    requires IsRun(states, acts) && i < |states|
    ensures var q := states[i].q;
            && (q.readers == {} || q.writers == {})
            && (q.writers != {} ==> |q.log| == q.read + PIPESIZE && q.readopen)
            && (q.readers != {} ==> q.readopen && q.writeopen)
  {
    hide Apply, Enabled;
    RunInv(states, acts, i);
  }

  /** A reader sleeps although there is something to read. */
  predicate Stranded(q: Queue) { q.readers != {} && q.read < |q.log| }

  /** A reader sleeps and the next stretch of pipewrite will not end: its process has
      been killed, and it has more bytes than the pipe holds. */
  predicate Strands(s: State, a: Action) {
    && a.Write? && a.w < |s.writers| && s.q.readers != {}
    && s.writers[a.w].killed && |s.writers[a.w].addr| - s.writers[a.w].i > PIPESIZE
  }

  /** One step strands a reader if and only if it is such a write. */
  lemma StrandsIff(s: State, a: Action)
    requires Inv(s) && Enabled(s, a) && !Stranded(s.q)
    ensures Stranded(Apply(s, a).q) <==> Strands(s, a)
  {
  }

  lemma {:induction false} FirstStranded(states: seq<State>, acts: seq<Action>, k: nat) returns (m: nat)
    requires IsRun(states, acts) && k < |states| && Stranded(states[k].q)
    ensures m < k && Strands(states[m], acts[m])
  {
    hide Apply, Enabled, Strands;
    if Stranded(states[k - 1].q) {
      m := FirstStranded(states, acts, k - 1);
    } else {
      m := k - 1;
      RunInv(states, acts, m);
      StrandsIff(states[m], acts[m]);
    }
  }

  /** In a run a reader ever sleeps on a pipe with bytes in it if and only if at some
      point a killed process writes more than PIPESIZE bytes while a reader sleeps. */
  lemma StrandedIff(states: seq<State>, acts: seq<Action>)
    requires IsRun(states, acts)
    ensures (exists k :: 0 <= k < |states| && Stranded(states[k].q)) <==>
              (exists m :: 0 <= m < |acts| && Strands(states[m], acts[m]))
  {
    hide Apply, Enabled, Strands, Stranded;
    if k :| 0 <= k < |states| && Stranded(states[k].q) {
      var m := FirstStranded(states, acts, k);
    }
    if m :| 0 <= m < |acts| && Strands(states[m], acts[m]) {
      RunInv(states, acts, m);
      if !Stranded(states[m].q) {
        StrandsIff(states[m], acts[m]);
        assert Stranded(states[m + 1].q);
      }
    }
  }

  /** It happens: a reader sleeps on an empty pipe, a killed process writes 513 bytes,
      and the reader sleeps on beside a full pipe. */
  lemma SleepsOn()
    ensures exists states: seq<State>, acts: seq<Action> ::
              && IsRun(states, acts) && |states| == 6 && states[5].q.readers == {0} && states[5].q.writeopen
              && |states[5].q.log| == PIPESIZE && states[5].q.read == 0 && |states[5].writers| == 1
              && states[5].writers[0].over
  {
    var addr: seq<Byte> := seq(PIPESIZE + 1, _ => 0);
    var acts := [CallRead(1), Read(0), CallWrite(addr), KillWriter(0), Write(0)];
    var s1 := Apply(START, acts[0]);
    var s2 := Apply(s1, acts[1]);
    var s3 := Apply(s2, acts[2]);
    var s4 := Apply(s3, acts[3]);
    var s5 := Apply(s4, acts[4]);
    assert IsRun([START, s1, s2, s3, s4, s5], acts);
  }
}
