/** begin_op, log_write and end_op (log.c) for any number of processes in any
    interleaving. Each operation logs at most MAXOPBLOCKS distinct blocks. The
    test at the top of log_write reads the log without log.lock, so it is a step
    of its own. */
module LogAdmission {
  import opened Params
  import Sets

  /** A process outside any operation; in one that has logged the given blocks;
      past log_write's test for block b and about to record it; or committing. */
  datatype Op =
    | Outside
    | In(logged: set<nat>)
    | Writing(logged: set<nat>, b: nat)
    | Committing

  /** blocks is log.lh.block[0..log.lh.n]. */
  datatype State = State(procs: seq<Op>, outstanding: int, committing: bool, blocks: seq<nat>)

  datatype Action =
    | Begin(p: nat)
    | Check(p: nat, b: nat)
    | Record(p: nat)
    | End(p: nat)
    | Done(p: nat)

  function Start(n: nat): State {
    State(seq(n, _ => Outside), 0, false, [])
  }

  /** log_write's first two tests for a log of size blocks. */
  predicate TooBig(size: nat, s: State) {
    |s.blocks| >= LOGSIZE || |s.blocks| >= size - 1
  }

  predicate Active(o: Op) { o.In? || o.Writing? }

  /** The steps that can be taken; a panic is no step. */
  predicate Enabled(size: nat, s: State, a: Action) {
    && a.p < |s.procs|
    && var o := s.procs[a.p];
    match a
    case Begin(_) => o.Outside? && !s.committing && |s.blocks| + (s.outstanding + 1) * MAXOPBLOCKS <= LOGSIZE
    case Check(_, b) => o.In? && |o.logged + {b}| <= MAXOPBLOCKS && !TooBig(size, s) && s.outstanding >= 1
    case Record(_) => o.Writing?
    case End(_) => o.In? && !s.committing
    case Done(_) => o.Committing?
  }

  /** log_write's loop: a block that is there already is not added again. */
  function Absorb(blocks: seq<nat>, b: nat): seq<nat> {
    if b in blocks then blocks else blocks + [b]
  }

  function Apply(size: nat, s: State, a: Action): State
    requires Enabled(size, s, a)
  {
    var o := s.procs[a.p];
    match a
    case Begin(p) => s.(procs := s.procs[p := In({})], outstanding := s.outstanding + 1)
    case Check(p, b) => s.(procs := s.procs[p := Writing(o.logged, b)])
    case Record(p) => s.(procs := s.procs[p := In(o.logged + {o.b})], blocks := Absorb(s.blocks, o.b))
    case End(p) =>
      if s.outstanding - 1 == 0 then s.(procs := s.procs[p := Committing], outstanding := 0, committing := true)
      else s.(procs := s.procs[p := Outside], outstanding := s.outstanding - 1)
    case Done(p) => s.(procs := s.procs[p := Outside], committing := false, blocks := [])
  }

  // ---- the invariant ----

  /** How many of the first k processes are in an operation. */
  function Ops(procs: seq<Op>, k: nat): nat
    requires k <= |procs|
  {
    if k == 0 then 0 else Ops(procs, k - 1) + if Active(procs[k - 1]) then 1 else 0
  }

  /** How many are committing. */
  function Committers(procs: seq<Op>, k: nat): nat
    requires k <= |procs|
  {
    if k == 0 then 0 else Committers(procs, k - 1) + if procs[k - 1].Committing? then 1 else 0
  }

  /** What an operation has reserved and not used. */
  function Left(o: Op): int {
    if Active(o) then MAXOPBLOCKS - |o.logged| else 0
  }

  /** The unused reservations of the first k processes. */
  function Unused(procs: seq<Op>, k: nat): int
    requires k <= |procs|
  {
    if k == 0 then 0 else Unused(procs, k - 1) + Left(procs[k - 1])
  }

  ghost predicate OpOk(blocks: seq<nat>, o: Op) {
    && (Active(o) ==> |o.logged| <= MAXOPBLOCKS && forall b :: b in o.logged ==> b in blocks)
    && (o.Writing? ==> |o.logged + {o.b}| <= MAXOPBLOCKS)
  }

  ghost predicate Inv(s: State) {
    && (forall p :: 0 <= p < |s.procs| ==> OpOk(s.blocks, s.procs[p]))
    && s.outstanding == Ops(s.procs, |s.procs|)
    && Committers(s.procs, |s.procs|) == (if s.committing then 1 else 0)
    && (s.committing ==> s.outstanding == 0)
    && (s.outstanding == 0 && !s.committing ==> s.blocks == [])
    && |s.blocks| + Unused(s.procs, |s.procs|) <= LOGSIZE
    && Sets.NoDup(s.blocks)
  }

  lemma {:induction false} SumUpdate(procs: seq<Op>, p: nat, o: Op, k: nat)
    requires p < |procs| && k <= |procs|
    ensures var procs' := procs[p := o];
            if p < k then
              && Ops(procs', k) + (if Active(procs[p]) then 1 else 0) == Ops(procs, k) + (if Active(o) then 1 else 0)
              && Committers(procs', k) + (if procs[p].Committing? then 1 else 0)
                 == Committers(procs, k) + (if o.Committing? then 1 else 0)
              && Unused(procs', k) + Left(procs[p]) == Unused(procs, k) + Left(o)
            else
              && Ops(procs', k) == Ops(procs, k) && Unused(procs', k) == Unused(procs, k)
              && Committers(procs', k) == Committers(procs, k)
  {
    if k > 0 { SumUpdate(procs, p, o, k - 1); }
  }

  lemma {:induction false} SumBound(procs: seq<Op>, k: nat)
    requires k <= |procs| && forall p :: 0 <= p < k && Active(procs[p]) ==> |procs[p].logged| <= MAXOPBLOCKS
    ensures 0 <= Unused(procs, k) <= Ops(procs, k) * MAXOPBLOCKS
    ensures forall p :: 0 <= p < k ==> Left(procs[p]) <= Unused(procs, k)
    ensures forall p :: 0 <= p < k && Active(procs[p]) ==> Ops(procs, k) >= 1
    ensures forall p :: 0 <= p < k && procs[p].Committing? ==> Committers(procs, k) >= 1
  {
    if k > 0 { SumBound(procs, k - 1); }
  }

  lemma OpsKept(size: nat, s: State, a: Action, p: nat)
    requires Enabled(size, s, a) && p < |s.procs| && OpOk(s.blocks, s.procs[p]) && OpOk(s.blocks, s.procs[a.p])
    requires a.Done? ==> !Active(s.procs[p])
    ensures OpOk(Apply(size, s, a).blocks, Apply(size, s, a).procs[p])
  {
  }

  lemma InvKept(size: nat, s: State, a: Action)
    requires Inv(s) && Enabled(size, s, a)
    ensures Inv(Apply(size, s, a))
  {
    hide Ops, Unused, Committers;
    var s', o := Apply(size, s, a), s.procs[a.p];
    assert OpOk(s.blocks, o);
    SumUpdate(s.procs, a.p, s'.procs[a.p], |s.procs|);
    SumBound(s.procs, |s.procs|);
    assert a.Record? ==> o.logged + {o.b} == if o.b in o.logged then o.logged else o.logged + {o.b};
    forall p | 0 <= p < |s'.procs| ensures OpOk(s'.blocks, s'.procs[p]) {
      OpsKept(size, s, a, p);
    }
  }

  lemma {:induction false} StartSums(n: nat, k: nat)
    requires k <= n
    ensures var procs := Start(n).procs; Ops(procs, k) == 0 && Unused(procs, k) == 0 && Committers(procs, k) == 0
  {
    if k > 0 { StartSums(n, k - 1); }
  }

  // ---- runs ----

  ghost predicate IsRun(size: nat, n: nat, states: seq<State>, acts: seq<Action>) {
    && |states| == |acts| + 1 && states[0] == Start(n)
    && forall i :: 0 <= i < |acts| ==>
         Enabled(size, states[i], acts[i]) && states[i + 1] == Apply(size, states[i], acts[i])
  }

  /** Some run of n processes over a log of size blocks passes through s. */
  ghost predicate Reachable(size: nat, n: nat, s: State) {
    exists states, acts :: IsRun(size, n, states, acts) && states[|acts|] == s
  }

  lemma ReachStep(size: nat, n: nat, s: State, a: Action)
    requires Reachable(size, n, s) && Enabled(size, s, a)
    ensures Reachable(size, n, Apply(size, s, a))
  {
    var states, acts :| IsRun(size, n, states, acts) && states[|acts|] == s;
    assert IsRun(size, n, states + [Apply(size, s, a)], acts + [a]);
  }

  lemma {:induction false} RunInv(size: nat, n: nat, states: seq<State>, acts: seq<Action>, i: nat)
    requires IsRun(size, n, states, acts) && i < |states|
    ensures Inv(states[i]) && |states[i].procs| == n
  {
    if i > 0 {
      RunInv(size, n, states, acts, i - 1);
      InvKept(size, states[i - 1], acts[i - 1]);
    } else {
      StartSums(n, n);
    }
  }

  lemma ReachInv(size: nat, n: nat, s: State)
    requires Reachable(size, n, s)
    ensures Inv(s) && |s.procs| == n
  {
    var states, acts :| IsRun(size, n, states, acts) && states[|acts|] == s;
    RunInv(size, n, states, acts, |acts|);
  }

  /** Admission: what is logged and what is still reserved always fit the log, and
      no block is listed twice. */
  lemma ReservationsFit(size: nat, n: nat, s: State)
    requires Reachable(size, n, s)
    ensures |s.procs| == n && |s.blocks| + Unused(s.procs, n) <= LOGSIZE && 0 <= Unused(s.procs, n)
            && Sets.NoDup(s.blocks)
  {
    ReachInv(size, n, s);
    SumBound(s.procs, n);
  }

  /** A commit runs alone: while one is going on no process is in an operation, so
      nothing is admitted, tested or recorded until it is done. */
  lemma CommitsAlone(size: nat, n: nat, s: State, a: Action)
    requires Reachable(size, n, s) && s.committing
    ensures s.outstanding == 0 && forall p :: 0 <= p < |s.procs| ==> !Active(s.procs[p])
    ensures Enabled(size, s, a) ==> a.Done?
  {
    ReachInv(size, n, s);
    SumBound(s.procs, n);
  }

  /** The panic in end_op and the second one in log_write cannot be reached. */
  lemma NoEndPanic(size: nat, n: nat, s: State, p: nat)
    requires Reachable(size, n, s) && p < n && |s.procs| == n && Active(s.procs[p])
    ensures !s.committing && s.outstanding >= 1 && (s.procs[p].In? ==> Enabled(size, s, End(p)))
  {
    ReachInv(size, n, s);
    SumBound(s.procs, n);
  }

  /** The step that takes process q towards the end of its operation or commit. */
  function Next(q: nat, o: Op): Action {
    match o
    case Outside => Begin(q)
    case In(_) => End(q)
    case Writing(_, _) => Record(q)
    case Committing => Done(q)
  }

  /** Nobody waits in begin_op on an idle log: when a process is turned away, another
      is in an operation or committing, and its next step towards the end can be
      taken. */
  lemma SomeoneElseMoves(size: nat, n: nat, s: State, p: nat)
    requires Reachable(size, n, s) && p < n && |s.procs| == n && s.procs[p].Outside? && !Enabled(size, s, Begin(p))
    ensures exists q: nat :: q < n && q != p && !s.procs[q].Outside? && Enabled(size, s, Next(q, s.procs[q]))
  {
    ReachInv(size, n, s);
    if forall q :: 0 <= q < n ==> s.procs[q].Outside? {
      AllOutside(s.procs, n);
    } else {
      var q: nat :| q < n && !s.procs[q].Outside?;
      if Active(s.procs[q]) { NoEndPanic(size, n, s, q); }
      assert Enabled(size, s, Next(q, s.procs[q]));
    }
  }

  /** The actions lead from s to s'. */
  ghost predicate Leads(size: nat, s: State, acts: seq<Action>, s': State)
    decreases |acts|
  {
    if acts == [] then s' == s else Enabled(size, s, acts[0]) && Leads(size, Apply(size, s, acts[0]), acts[1..], s')
  }

  /** Steps left until the first k processes are outside. */
  function Work(procs: seq<Op>, k: nat): nat
    requires k <= |procs|
  {
    if k == 0 then 0 else Work(procs, k - 1) + Steps(procs[k - 1])
  }

  function Steps(o: Op): nat {
    match o
    case Outside => 0
    case Committing => 1
    case In(_) => 2
    case Writing(_, _) => 3
  }

  lemma {:induction false} WorkLess(procs: seq<Op>, procs': seq<Op>, q: nat, k: nat)
    requires q < k <= |procs| == |procs'| && procs' == procs[q := procs'[q]]
    requires Steps(procs'[q]) < Steps(procs[q])
    ensures Work(procs', k) < Work(procs, k)
  {
    if q < k - 1 { WorkLess(procs, procs', q, k - 1); } else { WorkSame(procs, procs', k - 1); }
  }

  lemma {:induction false} WorkSame(procs: seq<Op>, procs': seq<Op>, k: nat)
    requires k <= |procs| == |procs'| && forall q :: 0 <= q < k ==> procs'[q] == procs[q]
    ensures Work(procs', k) == Work(procs, k)
  {
    if k > 0 { WorkSame(procs, procs', k - 1); }
  }

  /** And it is let in once the others have finished what they are at, which from every
      reachable state they can. */
  lemma {:induction false} GetsIn(size: nat, n: nat, s: State, p: nat) returns (acts: seq<Action>, s': State)
    requires Reachable(size, n, s) && p < n && |s.procs| == n && s.procs[p].Outside?
    ensures Leads(size, s, acts, s') && (forall i :: 0 <= i < |acts| ==> acts[i].p != p) && Enabled(size, s', Begin(p))
    decreases Work(s.procs, |s.procs|)
  {
    hide Reachable;
    acts, s' := [], s;
    if !Enabled(size, s, Begin(p)) {
      SomeoneElseMoves(size, n, s, p);
      var q: nat :| q < n && q != p && !s.procs[q].Outside? && Enabled(size, s, Next(q, s.procs[q]));
      var a := Next(q, s.procs[q]);
      var s1 := Apply(size, s, a);
      ReachStep(size, n, s, a);
      WorkLess(s.procs, s1.procs, q, n);
      acts, s' := GetsIn(size, n, s1, p);
      assert ([a] + acts)[1..] == acts;
      acts := [a] + acts;
    }
  }

  lemma {:induction false} AllOutside(procs: seq<Op>, k: nat)
    requires k <= |procs| && forall q :: 0 <= q < k ==> procs[q].Outside?
    ensures Ops(procs, k) == 0 && Committers(procs, k) == 0
  {
    if k > 0 { AllOutside(procs, k - 1); }
  }

  // ---- when log_write panics, and when the log overruns ----

  /** Three operations that take turns logging blocks 0, 1, 2, ... */
  ghost function Share(m: nat, p: nat): (r: set<nat>)
    ensures forall b :: b in r ==> b < m
    ensures p < 3 ==> |r| == (m + 2 - p) / 3
  {
    if m == 0 then {} else Share(m - 1, p) + if (m - 1) % 3 == p then {m - 1} else {}
  }

  ghost function Turns(n: nat, m: nat): State {
    State(seq(n, p requires 0 <= p => if p < 3 then In(Share(m, p)) else Outside), 3, false, seq(m, i => i))
  }

  lemma TurnsStart(size: nat, n: nat)
    requires n >= 3
    ensures Reachable(size, n, Turns(n, 0))
  {
    var s0 := Start(n);
    assert IsRun(size, n, [s0], []);
    ReachStep(size, n, s0, Begin(0));
    var s1 := Apply(size, s0, Begin(0));
    ReachStep(size, n, s1, Begin(1));
    var s2 := Apply(size, s1, Begin(1));
    ReachStep(size, n, s2, Begin(2));
    assert Apply(size, s2, Begin(2)) == Turns(n, 0);
  }

  lemma TurnsStep(size: nat, n: nat, m: nat)
    requires n >= 3 && m < LOGSIZE && m < size - 1
    ensures var s := Turns(n, m);
            && Enabled(size, s, Check(m % 3, m)) && Enabled(size, Apply(size, s, Check(m % 3, m)), Record(m % 3))
            && Apply(size, Apply(size, s, Check(m % 3, m)), Record(m % 3)) == Turns(n, m + 1)
  {
    var s := Turns(n, m);
    var s' := Apply(size, Apply(size, s, Check(m % 3, m)), Record(m % 3));
    assert m !in s.blocks;
    assert s'.blocks == Turns(n, m + 1).blocks;
    assert s'.procs == Turns(n, m + 1).procs;
  }

  lemma {:induction false} TurnsReached(size: nat, n: nat, m: nat)
    requires n >= 3 && m <= LOGSIZE && (m == 0 || m <= size - 1)
    ensures Reachable(size, n, Turns(n, m))
  {
    hide Reachable, Turns, Apply, Enabled;
    if m == 0 {
      TurnsStart(size, n);
    } else {
      TurnsReached(size, n, m - 1);
      TurnsStep(size, n, m - 1);
      var s, p := Turns(n, m - 1), (m - 1) % 3;
      ReachStep(size, n, s, Check(p, m - 1));
      ReachStep(size, n, Apply(size, s, Check(p, m - 1)), Record(p));
    }
  }

  /** Process p, in an operation, may log block b, which it has not logged yet. */
  ghost predicate Fresh(s: State, p: nat, b: nat) {
    p < |s.procs| && s.procs[p].In? && b !in s.procs[p].logged && |s.procs[p].logged + {b}| <= MAXOPBLOCKS
  }

  /** log_write accepts every block new to its operation exactly when the log area
      has more than LOGSIZE blocks. mkfs makes it LOGSIZE. */
  lemma NewBlocksPass(size: nat, n: nat)
    requires n >= 3 && size >= 1
    ensures (forall s, p, b :: Reachable(size, n, s) && Fresh(s, p, b) ==> !TooBig(size, s)) <==> size > LOGSIZE
  {
    hide Reachable, Share;
    if size > LOGSIZE {
      forall s, p: nat, b: nat | Reachable(size, n, s) && Fresh(s, p, b) ensures !TooBig(size, s) {
        ReachInv(size, n, s);
        SumBound(s.procs, n);
        assert Left(s.procs[p]) >= 1;
      }
    } else {
      var m := size - 1;
      TurnsReached(size, n, m);
      var s := Turns(n, m);
      assert s.procs[m % 3] == In(Share(m, m % 3));
      assert Fresh(s, m % 3, m) && TooBig(size, s);
    }
  }

  /** Two operations that pass the test together overrun a log area of up to
      LOGSIZE blocks; a larger one always holds the header and every block. */
  lemma LogFits(size: nat, n: nat)
    requires n >= 3 && size >= 2
    ensures (forall s :: Reachable(size, n, s) ==> |s.blocks| <= size - 1) <==> size > LOGSIZE
  {
    if size > LOGSIZE {
      forall s | Reachable(size, n, s) ensures |s.blocks| <= size - 1 {
        ReservationsFit(size, n, s);
      }
    } else {
      Overrun(size, n);
    }
  }

  /** Two operations pass log_write's test before either records its block. */
  lemma BothPass(size: nat, n: nat, s: State, p: nat, q: nat, b: nat, c: nat)
    requires Reachable(size, n, s) && !TooBig(size, s) && s.outstanding >= 1
    requires p != q && b != c && Fresh(s, p, b) && Fresh(s, q, c) && b !in s.blocks && c !in s.blocks
    ensures exists s' :: Reachable(size, n, s') && |s'.blocks| == |s.blocks| + 2
  {
    hide Reachable;
    ReachStep(size, n, s, Check(p, b));
    var s1 := Apply(size, s, Check(p, b));
    ReachStep(size, n, s1, Check(q, c));
    var s2 := Apply(size, s1, Check(q, c));
    ReachStep(size, n, s2, Record(p));
    var s3 := Apply(size, s2, Record(p));
    ReachStep(size, n, s3, Record(q));
    assert |Apply(size, s3, Record(q)).blocks| == |s.blocks| + 2;
  }

  lemma Overrun(size: nat, n: nat)
    requires n >= 3 && 2 <= size <= LOGSIZE
    ensures exists s :: Reachable(size, n, s) && |s.blocks| == size
  {
    hide Reachable, Share;
    var m := size - 2;
    var s, p, q := Turns(n, m), m % 3, (m + 1) % 3;
    TurnsReached(size, n, m);
    assert s.procs[p] == In(Share(m, p)) && s.procs[q] == In(Share(m, q));
    BothPass(size, n, s, p, q, m, m + 1);
  }

  /** With a large enough log area log_write still panics on a full log, even for a
      block that is already there: exactly when LOGSIZE blocks are logged, which
      needs every reservation used up; and that is reachable. */
  lemma RelogPanics(size: nat, n: nat)
    requires n >= 3 && size > LOGSIZE
    ensures forall s :: Reachable(size, n, s) ==> (TooBig(size, s) <==> |s.blocks| == LOGSIZE)
    ensures forall s :: Reachable(size, n, s) && TooBig(size, s) ==> |s.procs| == n && Unused(s.procs, n) == 0
    ensures exists s, p, b :: Reachable(size, n, s) && Relog(s, p, b) && TooBig(size, s)
  {
    hide Reachable, Share;
    forall s | Reachable(size, n, s)
      ensures TooBig(size, s) <==> |s.blocks| == LOGSIZE
      ensures TooBig(size, s) ==> |s.procs| == n && Unused(s.procs, n) == 0
    {
      ReservationsFit(size, n, s);
    }
    TurnsReached(size, n, LOGSIZE);
    var s := Turns(n, LOGSIZE);
    var b :| b in Share(LOGSIZE, 0);
    assert Relog(s, 0, b);
  }

  ghost predicate Relog(s: State, p: nat, b: nat) {
    p < |s.procs| && s.procs[p].In? && b in s.procs[p].logged && |s.procs[p].logged| <= MAXOPBLOCKS
  }

  /** And a commit of LOGSIZE blocks is reachable, as many as there are buffers. */
  lemma FullCommit(size: nat, n: nat)
    requires n >= 3 && size > LOGSIZE
    ensures exists s :: Reachable(size, n, s) && s.committing && |s.blocks| == NBUF
  {
    hide Reachable, Share;
    TurnsReached(size, n, LOGSIZE);
    var s0 := Turns(n, LOGSIZE);
    ReachStep(size, n, s0, End(0));
    var s1 := Apply(size, s0, End(0));
    ReachStep(size, n, s1, End(1));
    var s2 := Apply(size, s1, End(1));
    ReachStep(size, n, s2, End(2));
    var s3 := Apply(size, s2, End(2));
    assert s3.committing && |s3.blocks| == NBUF;
  }
}
