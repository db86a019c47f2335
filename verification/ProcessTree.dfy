/** fork, exit, wait and kill (proc.c) as steps of any number of processes, one
    step for each stretch that runs under ptable.lock or writes a field without
    it. A process table slot is named by its index; -1 is no process. */
module ProcessTree {
  import Sets

  datatype Status = UNUSED | EMBRYO | SLEEPING | RUNNABLE | RUNNING | ZOMBIE

  datatype Chan = OnProc(p: int) | Other(c: nat)

  /** Where a process is: in user code; in fork, filling slot i before and after
      it has set the child's parent; or asleep in wait. */
  datatype Pc = User | Forking(i: nat) | Parented(i: nat) | Waiting

  /** maker, not in the source, is the process whose fork fills an EMBRYO slot. */
  datatype Proc = Proc(status: Status, pid: nat, parent: int, chan: Chan, killed: bool, pc: Pc, maker: int)

  /** exited and reaped, not in the source, list the pids of all processes that
      have exited and of all that wait has returned. */
  datatype State = State(procs: seq<Proc>, nextpid: nat, init: nat, exited: seq<nat>, reaped: seq<nat>)

  datatype Action =
    | Alloc(p: nat, i: nat)
    | ForkFail(p: nat)
    | SetParent(p: nat)
    | ForkDone(p: nat)
    | Exit(p: nat)
    | Wait(p: nat)
    | Dispatch(p: nat)
    | Yield(p: nat)
    | Sleep(p: nat, c: nat)
    | Wakeup(p: nat, c: nat)
    | Kill(p: nat, v: nat)

  predicate Alive(st: Status) { st == RUNNABLE || st == RUNNING || st == SLEEPING }

  // ---- scans of the table ----

  function Woken(q: Proc, chan: Chan): Proc {
    if q.status == SLEEPING && q.chan == chan then q.(status := RUNNABLE) else q
  }

  /** wakeup1. */
  function Wake(procs: seq<Proc>, chan: Chan): seq<Proc> {
    seq(|procs|, i requires 0 <= i < |procs| => Woken(procs[i], chan))
  }

  predicate DeadChild(procs: seq<Proc>, p: int, i: int) {
    0 <= i < |procs| && procs[i].parent == p && procs[i].status == ZOMBIE
  }

  /** The first ZOMBIE child of p from slot k on, |procs| if there is none. */
  function FirstDead(procs: seq<Proc>, p: int, k: nat): (r: nat)
    requires k <= |procs|
    ensures k <= r <= |procs| && (forall j :: k <= j < r ==> !DeadChild(procs, p, j))
            && (r < |procs| ==> DeadChild(procs, p, r))
    decreases |procs| - k
  {
    if k == |procs| || DeadChild(procs, p, k) then k else FirstDead(procs, p, k + 1)
  }

  predicate HasKids(procs: seq<Proc>, p: int) { exists i :: 0 <= i < |procs| && procs[i].parent == p }

  predicate HasDead(procs: seq<Proc>, p: int) { exists i :: 0 <= i < |procs| && DeadChild(procs, p, i) }

  /** One slot after the exit of process p. */
  function AfterExit(procs: seq<Proc>, init: nat, p: nat, i: nat): Proc
    requires i < |procs| && p < |procs|
  {
    var q := Woken(procs[i], OnProc(procs[p].parent));
    var q := if HasDead(procs, p) then Woken(q, OnProc(init)) else q;
    var q := if q.parent == p then q.(parent := init) else q;
    if i == p then q.(status := ZOMBIE) else q
  }

  function Exited(procs: seq<Proc>, init: nat, p: nat): (r: seq<Proc>)
    requires p < |procs|
    ensures |r| == |procs|
  {
    seq(|procs|, i requires 0 <= i < |procs| => AfterExit(procs, init, p, i))
  }

  function Reaped(q: Proc): Proc {
    q.(status := UNUSED, pid := 0, parent := -1, killed := false)
  }

  /** wait's loop body: reap, give up, or sleep. */
  function WaitStep(s: State, p: nat): State
    requires p < |s.procs|
  {
    var k := FirstDead(s.procs, p, 0);
    var q := s.procs[p];
    if k < |s.procs| then
      var procs := s.procs[p := q.(status := RUNNING, pc := User)];
      s.(procs := procs[k := Reaped(procs[k])], reaped := s.reaped + [s.procs[k].pid])
    else if !HasKids(s.procs, p) || q.killed then
      s.(procs := s.procs[p := q.(status := RUNNING, pc := User)])
    else s.(procs := s.procs[p := q.(status := SLEEPING, chan := OnProc(p), pc := Waiting)])
  }

  // ---- steps ----

  predicate Enabled(s: State, a: Action) {
    && a.p < |s.procs|
    && var q := s.procs[a.p];
    match a
    case Alloc(_, i) =>
      && q.status == RUNNING && q.pc.User? && i < |s.procs| && s.procs[i].status == UNUSED
      && forall j :: 0 <= j < i ==> s.procs[j].status != UNUSED
    case ForkFail(_) => q.status == RUNNING && q.pc.Forking? && q.pc.i < |s.procs|
    case SetParent(_) => q.status == RUNNING && q.pc.Forking? && q.pc.i < |s.procs|
    case ForkDone(_) => q.status == RUNNING && q.pc.Parented? && q.pc.i < |s.procs|
    case Exit(_) => q.status == RUNNING && q.pc.User? && a.p != s.init
    case Wait(_) => q.status == RUNNING && q.pc.User?
    case Dispatch(_) => q.status == RUNNABLE
    case Yield(_) => q.status == RUNNING
    case Sleep(_, _) => q.status == RUNNING
    case Wakeup(_, _) => q.status == RUNNING
    case Kill(_, v) =>
      && q.status == RUNNING && v < |s.procs|
      && forall j :: 0 <= j < v ==> s.procs[j].pid != s.procs[v].pid
  }

  function Apply(s: State, a: Action): State
    requires Enabled(s, a)
  {
    var p, q := a.p, s.procs[a.p];
    match a
    case Alloc(_, i) =>
      var procs := s.procs[p := q.(pc := Forking(i))];
      s.(procs := procs[i := procs[i].(status := EMBRYO, pid := s.nextpid, maker := p)], nextpid := s.nextpid + 1)
    case ForkFail(_) =>
      var procs := s.procs[p := q.(pc := User)];
      s.(procs := procs[q.pc.i := procs[q.pc.i].(status := UNUSED)])
    case SetParent(_) =>
      var procs := s.procs[p := q.(pc := Parented(q.pc.i))];
      s.(procs := procs[q.pc.i := procs[q.pc.i].(parent := p)])
    case ForkDone(_) =>
      var procs := s.procs[p := q.(pc := User)];
      s.(procs := procs[q.pc.i := procs[q.pc.i].(status := RUNNABLE, pc := User)])
    case Exit(_) => s.(procs := Exited(s.procs, s.init, p), exited := s.exited + [q.pid])
    case Wait(_) => WaitStep(s, p)
    case Dispatch(_) => if q.pc.Waiting? then WaitStep(s, p) else s.(procs := s.procs[p := q.(status := RUNNING)])
    case Yield(_) => s.(procs := s.procs[p := q.(status := RUNNABLE)])
    case Sleep(_, c) => s.(procs := s.procs[p := q.(status := SLEEPING, chan := Other(c))])
    case Wakeup(_, c) => s.(procs := Wake(s.procs, Other(c)))
    case Kill(_, v) =>
      var w := s.procs[v].(killed := true);
      s.(procs := s.procs[v := if w.status == SLEEPING then w.(status := RUNNABLE) else w])
  }

  /** After userinit: one process, init, ready to run. */
  predicate Start(s: State) {
    && s.init < |s.procs| && s.nextpid == 2 && s.exited == [] && s.reaped == []
    && s.procs[s.init].status == RUNNABLE && s.procs[s.init].pid == 1 && s.procs[s.init].pc.User?
    && (forall i :: 0 <= i < |s.procs| ==> s.procs[i].parent == -1 && !s.procs[i].killed)
    && (forall i :: 0 <= i < |s.procs| && i != s.init ==> s.procs[i].status == UNUSED && s.procs[i].pid == 0)
  }

  // ---- the invariant ----

  /** A process past EMBRYO, other than init, has a parent that is alive; so has
      an EMBRYO slot whose parent is set; a free slot has none. */
  predicate ParentOk(s: State, i: int)
    requires 0 <= i < |s.procs|
  {
    var q := s.procs[i];
    && (q.parent == -1 || (0 <= q.parent < |s.procs| && q.parent != i && Alive(s.procs[q.parent].status)))
    && (q.status == UNUSED || i == s.init ==> q.parent == -1)
    && (i == s.init ==> Alive(q.status))
    && (q.status != UNUSED && q.status != EMBRYO && i != s.init ==> q.parent != -1)
  }

  /** The slot a fork is filling is an EMBRYO of its own. */
  predicate ForkOk(s: State, p: int)
    requires 0 <= p < |s.procs|
  {
    var pc := s.procs[p].pc;
    (pc.Forking? || pc.Parented?) && Alive(s.procs[p].status) ==>
      && pc.i < |s.procs| && pc.i != p && s.procs[pc.i].status == EMBRYO && s.procs[pc.i].maker == p
      && s.procs[pc.i].parent == if pc.Parented? then p else -1
  }

  /** Nobody sleeps in wait with a ZOMBIE child; only waiters sleep on a process,
      and they do not run before they have looked again. */
  predicate NotStuck(s: State, i: int)
    requires 0 <= i < |s.procs|
  {
    var q := s.procs[i];
    && (q.status == SLEEPING && q.chan.OnProc? ==> q.chan.p == i && q.pc.Waiting? && !HasDead(s.procs, i))
    && (q.status == SLEEPING && q.pc.Waiting? ==> q.chan == OnProc(i))
    && (q.status == RUNNING ==> !q.pc.Waiting?)
  }

  predicate PidsDiffer(s: State, i: int, j: int)
    requires 0 <= i < |s.procs| && 0 <= j < |s.procs|
  {
    s.procs[i].pid == 0 || s.procs[i].pid != s.procs[j].pid
  }

  /** A pid in use was given out; it is on the list of exits if and only if its
      process is a ZOMBIE, and no slot has a pid that has been reaped. */
  predicate PidOk(s: State, i: int)
    requires 0 <= i < |s.procs|
  {
    var q := s.procs[i];
    && q.pid < s.nextpid && (q.status != UNUSED ==> 1 <= q.pid)
    && (q.pid in s.exited <==> q.status == ZOMBIE) && q.pid !in s.reaped
  }

  predicate Remains(s: State, x: nat) {
    exists i :: 0 <= i < |s.procs| && s.procs[i].status == ZOMBIE && s.procs[i].pid == x
  }

  ghost predicate History(s: State) {
    && Sets.NoDup(s.exited) && Sets.NoDup(s.reaped)
    && (forall k :: 0 <= k < |s.exited| ==>
          0 < s.exited[k] < s.nextpid && (s.exited[k] in s.reaped || Remains(s, s.exited[k])))
    && (forall k :: 0 <= k < |s.reaped| ==> s.reaped[k] in s.exited)
  }

  ghost predicate Inv(s: State) {
    && s.init < |s.procs| && s.nextpid >= 1
    && (forall i :: 0 <= i < |s.procs| ==> ParentOk(s, i))
    && (forall i :: 0 <= i < |s.procs| ==> ForkOk(s, i))
    && (forall i :: 0 <= i < |s.procs| ==> NotStuck(s, i))
    && (forall i :: 0 <= i < |s.procs| ==> PidOk(s, i))
    && (forall i, j :: 0 <= i < j < |s.procs| ==> PidsDiffer(s, i, j))
    && History(s)
  }

  // ---- steps that only run, stop and wake processes ----

  predicate SlotKept(q: Proc, q': Proc) {
    && q'.pid == q.pid && q'.parent == q.parent && q'.pc == q.pc && q'.maker == q.maker
    && (q'.status == q.status || (Alive(q.status) && Alive(q'.status)))
    && (q'.status == SLEEPING && q'.chan.OnProc? ==> q.status == SLEEPING && q'.chan == q.chan)
    && (q'.status == SLEEPING && q'.pc.Waiting? ==> q.status == SLEEPING && q'.chan == q.chan)
    && (q'.status == RUNNING && q'.pc.Waiting? ==> q.status == RUNNING)
  }

  ghost predicate Scheduling(s: State, s': State) {
    && |s'.procs| == |s.procs| && s'.init == s.init && s'.nextpid == s.nextpid && s'.exited == s.exited
    && s'.reaped == s.reaped
    && forall i :: 0 <= i < |s.procs| ==> SlotKept(s.procs[i], s'.procs[i])
  }

  lemma SchedulingKeeps(s: State, s': State)
    requires Inv(s) && Scheduling(s, s')
    ensures Inv(s')
  {
    forall i, j | 0 <= i < |s.procs| && 0 <= j < |s.procs|
      ensures DeadChild(s'.procs, i, j) <==> DeadChild(s.procs, i, j)
    {
      assert SlotKept(s.procs[j], s'.procs[j]);
    }
    forall i | 0 <= i < |s.procs| ensures ParentOk(s', i) && ForkOk(s', i) {
      assert ParentOk(s, i) && ForkOk(s, i) && SlotKept(s.procs[i], s'.procs[i]);
    }
    forall i | 0 <= i < |s.procs| ensures NotStuck(s', i) && PidOk(s', i) {
      assert NotStuck(s, i) && PidOk(s, i) && SlotKept(s.procs[i], s'.procs[i]);
    }
    forall i, j | 0 <= i < j < |s.procs| ensures PidsDiffer(s', i, j) {
      assert PidsDiffer(s, i, j) && SlotKept(s.procs[i], s'.procs[i]) && SlotKept(s.procs[j], s'.procs[j]);
    }
    SameZombies(s, s');
  }

  /** The list of exits is right as long as the ZOMBIEs stay. */
  lemma SameZombies(s: State, s': State)
    requires History(s) && s'.exited == s.exited && s'.reaped == s.reaped && s.nextpid <= s'.nextpid
             && |s'.procs| == |s.procs|
    requires forall i :: 0 <= i < |s.procs| && s.procs[i].status == ZOMBIE ==>
               s'.procs[i].status == ZOMBIE && s'.procs[i].pid == s.procs[i].pid
    ensures History(s')
  {
    forall k | 0 <= k < |s.exited|
      ensures s.exited[k] < s'.nextpid && (s.exited[k] in s.reaped || Remains(s', s.exited[k]))
    {
      if Remains(s, s.exited[k]) {
        var i :| 0 <= i < |s.procs| && s.procs[i].status == ZOMBIE && s.procs[i].pid == s.exited[k];
        assert s'.procs[i].status == ZOMBIE;
      }
    }
  }

  // ---- fork ----

  lemma AllocKeeps(s: State, p: nat, i: nat)
    requires Inv(s) && Enabled(s, Alloc(p, i))
    ensures Inv(Apply(s, Alloc(p, i)))
  {
    var s' := Apply(s, Alloc(p, i));
    ForkScan(s, s', i);
    forall j | 0 <= j < |s.procs| ensures ParentOk(s', j) && ForkOk(s', j) {
      assert ParentOk(s, j) && ForkOk(s, j) && ParentOk(s, i);
    }
    forall j | 0 <= j < |s.procs| ensures NotStuck(s', j) && PidOk(s', j) {
      assert NotStuck(s, j) && PidOk(s, j);
    }
    forall j, k | 0 <= j < k < |s.procs| ensures PidsDiffer(s', j, k) {
      assert PidsDiffer(s, j, k) && PidOk(s, j) && PidOk(s, k);
    }
    SameZombies(s, s');
  }

  /** A slot that is no ZOMBIE before or after makes no dead child. */
  lemma ForkScan(s: State, s': State, i: nat)
    requires |s'.procs| == |s.procs| && i < |s.procs| && s.procs[i].status != ZOMBIE && s'.procs[i].status != ZOMBIE
    requires forall j :: 0 <= j < |s.procs| && j != i ==>
               s'.procs[j].status == s.procs[j].status && s'.procs[j].parent == s.procs[j].parent
    ensures forall p :: HasDead(s'.procs, p) <==> HasDead(s.procs, p)
  {
    forall p, j | 0 <= j < |s.procs| ensures DeadChild(s'.procs, p, j) <==> DeadChild(s.procs, p, j) {
    }
  }

  lemma ForkSlots(s: State, a: Action, j: nat)
    requires Inv(s) && Enabled(s, a) && (a.ForkFail? || a.SetParent? || a.ForkDone?) && j < |s.procs|
    ensures |Apply(s, a).procs| == |s.procs| && ParentOk(Apply(s, a), j) && ForkOk(Apply(s, a), j)
  {
    hide History, PidOk, PidsDiffer, NotStuck;
    assert ForkOk(s, a.p) && ParentOk(s, j) && ForkOk(s, j) && ParentOk(s, s.procs[a.p].pc.i);
  }

  lemma ForkKeeps(s: State, a: Action)
    requires Inv(s) && Enabled(s, a) && (a.ForkFail? || a.SetParent? || a.ForkDone?)
    ensures Inv(Apply(s, a))
  {
    hide ParentOk;
    var s', i := Apply(s, a), s.procs[a.p].pc.i;
    assert ForkOk(s, a.p);
    ForkScan(s, s', i);
    forall j | 0 <= j < |s.procs| ensures ParentOk(s', j) && ForkOk(s', j) {
      ForkSlots(s, a, j);
    }
    forall j | 0 <= j < |s.procs| ensures NotStuck(s', j) && PidOk(s', j) {
      assert NotStuck(s, j) && PidOk(s, j);
    }
    forall j, k | 0 <= j < k < |s.procs| ensures PidsDiffer(s', j, k) {
      assert PidsDiffer(s, j, k);
    }
    SameZombies(s, s');
  }

  // ---- exit ----

  lemma ExitParent(s: State, p: nat, i: nat)
    requires Inv(s) && Enabled(s, Exit(p)) && i < |s.procs|
    ensures ParentOk(Apply(s, Exit(p)), i)
  {
    hide History, ForkOk, PidOk, PidsDiffer, NotStuck, HasDead;
    assert ParentOk(s, i) && ParentOk(s, p) && ParentOk(s, s.init);
  }

  lemma ExitFork(s: State, p: nat, i: nat)
    requires Inv(s) && Enabled(s, Exit(p)) && i < |s.procs|
    ensures ForkOk(Apply(s, Exit(p)), i)
  {
    hide History, ParentOk, PidOk, PidsDiffer, NotStuck, HasDead;
    assert ForkOk(s, i) && ForkOk(s, p);
  }

  lemma ExitNotStuck(s: State, p: nat, i: nat)
    requires Inv(s) && Enabled(s, Exit(p)) && i < |s.procs|
    ensures NotStuck(Apply(s, Exit(p)), i)
  {
    hide History, ForkOk, PidOk, PidsDiffer;
    var s' := Apply(s, Exit(p));
    assert NotStuck(s, i) && ParentOk(s, p);
    if s'.procs[i].status == SLEEPING && s'.procs[i].chan.OnProc? {
      forall j | 0 <= j < |s.procs| ensures !DeadChild(s'.procs, i, j) {
        assert ParentOk(s, j) && !DeadChild(s.procs, i, j);
        assert DeadChild(s.procs, p, j) ==> HasDead(s.procs, p);
      }
    }
  }

  lemma ExitPids(s: State, p: nat)
    requires Inv(s) && Enabled(s, Exit(p))
    ensures var s' := Apply(s, Exit(p));
            && (forall i :: 0 <= i < |s'.procs| ==> PidOk(s', i))
            && (forall i, j :: 0 <= i < j < |s'.procs| ==> PidsDiffer(s', i, j))
  {
    hide ParentOk, ForkOk, NotStuck;
    var s', x := Apply(s, Exit(p)), s.procs[p].pid;
    assert PidOk(s, p);
    forall i | 0 <= i < |s.procs| ensures PidOk(s', i) {
      assert PidOk(s, i) && (i < p ==> PidsDiffer(s, i, p)) && (p < i ==> PidsDiffer(s, p, i));
    }
    forall i, j | 0 <= i < j < |s.procs| ensures PidsDiffer(s', i, j) {
      assert PidsDiffer(s, i, j);
    }
  }

  lemma ExitHistory(s: State, p: nat)
    requires Inv(s) && Enabled(s, Exit(p))
    ensures History(Apply(s, Exit(p)))
  {
    hide ParentOk, ForkOk, NotStuck, PidsDiffer;
    var s', x := Apply(s, Exit(p)), s.procs[p].pid;
    assert PidOk(s, p);
    assert s'.procs[p].status == ZOMBIE && s'.procs[p].pid == x;
    forall k | 0 <= k < |s'.exited|
      ensures s'.exited[k] < s'.nextpid && (s'.exited[k] in s'.reaped || Remains(s', s'.exited[k]))
    {
      if k < |s.exited| && Remains(s, s.exited[k]) {
        var i :| 0 <= i < |s.procs| && s.procs[i].status == ZOMBIE && s.procs[i].pid == s.exited[k];
        assert s'.procs[i].status == ZOMBIE && s'.procs[i].pid == s.exited[k];
      }
    }
  }

  lemma ExitKeeps(s: State, p: nat)
    requires Inv(s) && Enabled(s, Exit(p))
    ensures Inv(Apply(s, Exit(p)))
  {
    hide ParentOk, ForkOk, NotStuck, PidOk, PidsDiffer, History, Exited;
    var s' := Apply(s, Exit(p));
    forall i | 0 <= i < |s'.procs| ensures ParentOk(s', i) && ForkOk(s', i) && NotStuck(s', i) {
      ExitParent(s, p, i);
      ExitFork(s, p, i);
      ExitNotStuck(s, p, i);
    }
    ExitPids(s, p);
    ExitHistory(s, p);
  }

  // ---- wait ----

  predicate CanWait(s: State, p: nat) {
    p < |s.procs| && Alive(s.procs[p].status) && (s.procs[p].pc.User? || s.procs[p].pc.Waiting?)
  }

  lemma WaitSlots(s: State, p: nat, i: nat)
    requires Inv(s) && CanWait(s, p) && i < |s.procs|
    ensures |WaitStep(s, p).procs| == |s.procs| && ParentOk(WaitStep(s, p), i) && ForkOk(WaitStep(s, p), i)
  {
    var k := FirstDead(s.procs, p, 0);
    assert ParentOk(s, i) && ForkOk(s, i) && (k < |s.procs| ==> ParentOk(s, k));
  }

  lemma WaitNotStuck(s: State, p: nat, i: nat)
    requires Inv(s) && CanWait(s, p) && i < |s.procs|
    ensures |WaitStep(s, p).procs| == |s.procs| && NotStuck(WaitStep(s, p), i)
  {
    hide History, ForkOk, PidOk, PidsDiffer, ParentOk;
    var s' := WaitStep(s, p);
    assert NotStuck(s, i);
    forall j | 0 <= j < |s.procs| ensures DeadChild(s'.procs, i, j) ==> DeadChild(s.procs, i, j) {
    }
  }

  lemma WaitPids(s: State, p: nat)
    requires Inv(s) && CanWait(s, p)
    ensures var s' := WaitStep(s, p);
            && |s'.procs| == |s.procs| && (forall i :: 0 <= i < |s'.procs| ==> PidOk(s', i))
            && (forall i, j :: 0 <= i < j < |s'.procs| ==> PidsDiffer(s', i, j))
  {
    hide ParentOk, ForkOk, NotStuck;
    var s', k := WaitStep(s, p), FirstDead(s.procs, p, 0);
    assert 0 !in s.exited && 0 !in s.reaped;
    forall i | 0 <= i < |s.procs| ensures PidOk(s', i) {
      assert PidOk(s, i) && (k < |s.procs| ==> PidOk(s, k));
      if k < |s.procs| && i != k { assert if i < k then PidsDiffer(s, i, k) else PidsDiffer(s, k, i); }
    }
    forall i, j | 0 <= i < j < |s.procs| ensures PidsDiffer(s', i, j) {
      assert PidsDiffer(s, i, j);
    }
  }

  lemma WaitHistory(s: State, p: nat)
    requires Inv(s) && CanWait(s, p)
    ensures History(WaitStep(s, p))
  {
    hide ParentOk, ForkOk, NotStuck, PidsDiffer;
    var s', d := WaitStep(s, p), FirstDead(s.procs, p, 0);
    if d == |s.procs| {
      SameZombies(s, s');
    } else {
      assert PidOk(s, d);
      var x := s.procs[d].pid;
      assert s'.reaped[|s.reaped|] == x;
      forall y | y in s.reaped ensures y in s'.reaped {
      }
      forall k | 0 <= k < |s.exited| ensures s.exited[k] in s'.reaped || Remains(s', s.exited[k]) {
        if s.exited[k] != x && Remains(s, s.exited[k]) {
          var i :| 0 <= i < |s.procs| && s.procs[i].status == ZOMBIE && s.procs[i].pid == s.exited[k];
          assert s'.procs[i].status == ZOMBIE;
        }
      }
    }
  }

  lemma WaitKeeps(s: State, p: nat)
    requires Inv(s) && CanWait(s, p)
    ensures Inv(WaitStep(s, p))
  {
    hide ParentOk, ForkOk, NotStuck, PidOk, PidsDiffer, History;
    var s' := WaitStep(s, p);
    forall i | 0 <= i < |s'.procs| ensures ParentOk(s', i) && ForkOk(s', i) && NotStuck(s', i) {
      WaitSlots(s, p, i);
      WaitNotStuck(s, p, i);
    }
    WaitPids(s, p);
    WaitHistory(s, p);
  }

  lemma InvKept(s: State, a: Action)
    requires Inv(s) && Enabled(s, a)
    ensures Inv(Apply(s, a))
  {
    hide ParentOk, ForkOk, PidOk, PidsDiffer, History, Exited;
    match a
    case Alloc(p, i) => AllocKeeps(s, p, i);
    case ForkFail(_) => ForkKeeps(s, a);
    case SetParent(_) => ForkKeeps(s, a);
    case ForkDone(_) => ForkKeeps(s, a);
    case Exit(p) => ExitKeeps(s, p);
    case Wait(p) => WaitKeeps(s, p);
    case Dispatch(p) =>
      if s.procs[p].pc.Waiting? { WaitKeeps(s, p); } else { SchedulingKeeps(s, Apply(s, a)); }
    case _ =>
      assert NotStuck(s, a.p);
      SchedulingKeeps(s, Apply(s, a));
  }

  // ---- runs ----

  ghost predicate IsRun(states: seq<State>, acts: seq<Action>) {
    && |states| == |acts| + 1 && Start(states[0])
    && forall i :: 0 <= i < |acts| ==> Enabled(states[i], acts[i]) && states[i + 1] == Apply(states[i], acts[i])
  }

  lemma StartInv(s: State)
    requires Start(s)
    ensures Inv(s)
  {
    forall i | 0 <= i < |s.procs| ensures NotStuck(s, i) {
      assert s.procs[i].status != SLEEPING;
    }
  }

  lemma {:induction false} RunInv(states: seq<State>, acts: seq<Action>, i: nat)
    requires IsRun(states, acts) && i < |states|
    ensures Inv(states[i])
  {
    hide Inv, Apply, Enabled, Start;
    if i == 0 {
      StartInv(states[0]);
    } else {
      RunInv(states, acts, i - 1);
      InvKept(states[i - 1], acts[i - 1]);
    }
  }

  /** In every reachable state every process past EMBRYO but init has a parent
      that is neither UNUSED, EMBRYO nor ZOMBIE, and a ZOMBIE has no children. */
  lemma LiveParents(states: seq<State>, acts: seq<Action>, i: nat, j: nat)
    requires IsRun(states, acts) && i < |states| && j < |states[i].procs|
    ensures var procs := states[i].procs;
            var q := procs[j];
            && (q.status != UNUSED && q.status != EMBRYO && j != states[i].init ==>
                  0 <= q.parent < |procs| && Alive(procs[q.parent].status))
            && (!Alive(q.status) ==> forall k :: 0 <= k < |procs| ==> procs[k].parent != j)
  {
    hide Apply, Enabled, Start;
    RunInv(states, acts, i);
    assert ParentOk(states[i], j);
    forall k | 0 <= k < |states[i].procs| && !Alive(states[i].procs[j].status) ensures states[i].procs[k].parent != j {
      assert ParentOk(states[i], k);
    }
  }

  /** No parent sleeps in wait while it has a ZOMBIE child: it can run, and when
      it does, it reaps one. */
  lemma WaitNotMissed(states: seq<State>, acts: seq<Action>, i: nat, j: nat)
    requires IsRun(states, acts) && i < |states| && j < |states[i].procs| && states[i].procs[j].status == ZOMBIE
    ensures var s := states[i];
            var p := s.procs[j].parent;
            && 0 <= p < |s.procs| && !(s.procs[p].status == SLEEPING && s.procs[p].chan == OnProc(p))
            && (s.procs[p].pc.Waiting? ==> Enabled(s, Dispatch(p)) && |Apply(s, Dispatch(p)).reaped| == |s.reaped| + 1)
  {
    RunInv(states, acts, i);
    var s := states[i];
    var p := s.procs[j].parent;
    assert ParentOk(s, j) && NotStuck(s, p) && DeadChild(s.procs, p, j);
  }

  /** Every process that has exited has been reaped exactly once or is a ZOMBIE,
      and only such processes are reaped. */
  lemma ReapedOnce(states: seq<State>, acts: seq<Action>, i: nat)
    requires IsRun(states, acts) && i < |states|
    ensures var s := states[i];
            && Sets.NoDup(s.exited) && Sets.NoDup(s.reaped)
            && (forall x :: x in s.exited ==> (x in s.reaped) != Remains(s, x))
            && (forall x :: x in s.reaped ==> x in s.exited)
  {
    hide Apply, Enabled, Start;
    RunInv(states, acts, i);
    var s := states[i];
    forall x | x in s.exited ensures (x in s.reaped) != Remains(s, x) {
      if Remains(s, x) {
        var j :| 0 <= j < |s.procs| && s.procs[j].status == ZOMBIE && s.procs[j].pid == x;
        assert PidOk(s, j);
      }
    }
  }

  /** A pid but 0 is in at most one slot, free or not, so kill can hit no other process; once
      wait has returned it, it is in none, and kill returns -1. */
  lemma PidNamesOne(states: seq<State>, acts: seq<Action>, k: nat, i: nat, j: nat)
    requires IsRun(states, acts) && k < |states| && i < |states[k].procs| && j < |states[k].procs|
    ensures var s := states[k];
            && (s.procs[i].pid == s.procs[j].pid > 0 ==> i == j) && s.procs[i].pid !in s.reaped
  {
    hide Apply, Enabled, Start, History;
    RunInv(states, acts, k);
    var s := states[k];
    assert PidOk(s, i);
    if i != j { assert if i < j then PidsDiffer(s, i, j) else PidsDiffer(s, j, i); }
  }

  // ---- processes that are born killed ----

  predicate Hits(a: Action, i: int) { a.Kill? && a.v == i }

  /** The action lets wait reap slot i. */
  predicate Reaps(s: State, a: Action, i: int) {
    && a.p < |s.procs| && (a.Wait? || (a.Dispatch? && s.procs[a.p].pc.Waiting?))
    && i < |s.procs| && FirstDead(s.procs, a.p, 0) == i
  }

  /** Of the first k actions, m is a kill of slot i, and wait has not reaped the
      slot since. */
  ghost predicate Mark(states: seq<State>, acts: seq<Action>, k: nat, i: int, m: nat)
    requires IsRun(states, acts) && k <= |acts|
  {
    m < k && Hits(acts[m], i) && forall n :: m < n < k ==> !Reaps(states[n], acts[n], i)
  }

  lemma KilledStep(s: State, a: Action, i: nat)
    requires Enabled(s, a) && i < |s.procs|
    ensures |Apply(s, a).procs| == |s.procs|
    ensures Apply(s, a).procs[i].killed <==> Hits(a, i) || (s.procs[i].killed && !Reaps(s, a, i))
  {
    hide WaitStep, Exited;
    if a.Exit? { ExitKilled(s.procs, s.init, a.p, i); }
    if a.Wait? || a.Dispatch? { WaitKilled(s, a.p, i); }
  }

  lemma ExitKilled(procs: seq<Proc>, init: nat, p: nat, i: nat)
    requires p < |procs| && i < |procs|
    ensures Exited(procs, init, p)[i].killed == procs[i].killed
  {
  }

  lemma WaitKilled(s: State, p: nat, i: nat)
    requires p < |s.procs| && i < |s.procs|
    ensures |WaitStep(s, p).procs| == |s.procs|
    ensures WaitStep(s, p).procs[i].killed <==> s.procs[i].killed && FirstDead(s.procs, p, 0) != i
  {
  }

  /** In every state of every run a slot, free or not, is marked killed if and only
      if kill has hit it since the start or since wait last reaped it. */
  lemma {:induction false} KilledIff(states: seq<State>, acts: seq<Action>, k: nat, i: nat)
    requires IsRun(states, acts) && k < |states| && i < |states[0].procs|
    ensures |states[k].procs| == |states[0].procs|
    ensures states[k].procs[i].killed <==> exists m: nat :: Mark(states, acts, k, i, m)
  {
    hide Apply, Enabled, Reaps;
    if k > 0 {
      var j: nat := k - 1;
      KilledIff(states, acts, j, i);
      KilledStep(states[j], acts[j], i);
      if Hits(acts[j], i) {
        assert Mark(states, acts, k, i, j);
      }
      if m: nat :| Mark(states, acts, j, i, m) {
        assert !Reaps(states[j], acts[j], i) ==> Mark(states, acts, k, i, m);
      }
      if m: nat :| Mark(states, acts, k, i, m) {
        assert m < j ==> Mark(states, acts, j, i, m);
      }
    }
  }

  /** So fork starts a process that is killed already if and only if kill has hit its
      slot since wait last reaped it, or since the start. */
  lemma BornKilledIff(states: seq<State>, acts: seq<Action>, k: nat)
    requires IsRun(states, acts) && k < |acts| && acts[k].Alloc?
    ensures acts[k].i < |states[k + 1].procs|
    ensures states[k + 1].procs[acts[k].i].killed <==> exists m: nat :: Mark(states, acts, k, acts[k].i, m)
  {
    KilledIff(states, acts, k, 0);
    KilledIff(states, acts, k, acts[k].i);
  }

  // ---- kill reaches its victim ----

  lemma ReadyAtExit(procs: seq<Proc>, init: nat, p: nat, v: nat)
    requires p < |procs| && v < |procs| && p != v && procs[v].status == RUNNABLE
    ensures Exited(procs, init, p)[v].status == RUNNABLE && Exited(procs, init, p)[v].pc == procs[v].pc
  {
  }

  lemma OtherAtWait(s: State, p: nat, v: nat)
    requires p < |s.procs| && v < |s.procs| && p != v && s.procs[v].status != ZOMBIE
    ensures |WaitStep(s, p).procs| == |s.procs| && WaitStep(s, p).procs[v] == s.procs[v]
  {
  }

  /** A process that can run stays so until it does; a mark stays too. */
  lemma StaysReady(s: State, a: Action, v: nat)
    requires Inv(s) && Enabled(s, a) && v < |s.procs| && s.procs[v].status == RUNNABLE && a != Dispatch(v)
    ensures var q, q' := s.procs[v], Apply(s, a).procs[v];
            q'.status == RUNNABLE && q'.pc == q.pc && (q.killed ==> q'.killed)
  {
    hide History, Exited, WaitStep, PidsDiffer, ParentOk, PidOk;
    assert ForkOk(s, a.p);
    KilledStep(s, a, v);
    if a.Exit? { ReadyAtExit(s.procs, s.init, a.p, v); }
    if a.Wait? || a.Dispatch? { OtherAtWait(s, a.p, v); }
  }

  /** A process that runs is not in wait any more if it was killed. */
  lemma LeavesWait(s: State, v: nat)
    requires Inv(s) && v < |s.procs| && s.procs[v].status == RUNNABLE && s.procs[v].killed
    ensures var q' := Apply(s, Dispatch(v)).procs[v]; q'.status == RUNNING && !q'.pc.Waiting?
  {
    hide History, PidsDiffer, PidOk, ForkOk;
    assert ParentOk(s, v);
  }

  /** Once kill has hit a process that slept, it is ready to run until it does, and then it
      is out of wait. */
  lemma {:induction false} KilledRuns(states: seq<State>, acts: seq<Action>, k: nat, m: nat, v: nat)
    requires IsRun(states, acts) && k < m < |states| && acts[k].Kill? && acts[k].v == v
    requires v < |states[k].procs| && states[k].procs[v].status == SLEEPING
    requires forall n :: k < n < m ==> acts[n] != Dispatch(v)
    ensures v < |states[m].procs| && states[m].procs[v].killed && states[m].procs[v].status == RUNNABLE
    ensures Enabled(states[m], Dispatch(v))
    ensures var q' := Apply(states[m], Dispatch(v)).procs[v]; q'.status == RUNNING && !q'.pc.Waiting?
  {
    hide Inv, Exited, WaitStep, Start;
    if m > k + 1 {
      hide Apply;
      KilledRuns(states, acts, k, m - 1, v);
      RunInv(states, acts, m - 1);
      StaysReady(states[m - 1], acts[m - 1], v);
      KilledStep(states[m - 1], acts[m - 1], v);
    }
    RunInv(states, acts, m);
    LeavesWait(states[m], v);
  }

  // ---- sleep, wakeup and yield ----

  /** The action ends the sleep of process v on c. */
  predicate Rouses(a: Action, v: nat, c: nat) { (a.Wakeup? && a.c == c) || (a.Kill? && a.v == v) }

  lemma AsleepAtExit(procs: seq<Proc>, init: nat, p: nat, v: nat)
    requires p < |procs| && v < |procs| && v != p && procs[v].status == SLEEPING && procs[v].chan.Other?
    ensures var q := Exited(procs, init, p)[v]; q.status == SLEEPING && q.chan == procs[v].chan
  {
  }

  lemma AsleepStep(s: State, a: Action, v: nat)
    requires Inv(s) && Enabled(s, a) && v < |s.procs| && s.procs[v].status == SLEEPING && s.procs[v].chan.Other?
    ensures v < |Apply(s, a).procs|
    ensures var q, q' := s.procs[v], Apply(s, a).procs[v];
            if Rouses(a, v, q.chan.c) then q'.status == RUNNABLE else q'.status == SLEEPING && q'.chan == q.chan
  {
    hide History, Exited, WaitStep, PidsDiffer, ParentOk, PidOk;
    assert ForkOk(s, a.p);
    if a.Exit? { AsleepAtExit(s.procs, s.init, a.p, v); }
    if a.Wait? || a.Dispatch? { OtherAtWait(s, a.p, v); }
  }

  /** In every run a process that has gone to sleep stays asleep until a wakeup of its
      channel or a kill, and that makes it ready. */
  lemma {:induction false} SleepsUntil(states: seq<State>, acts: seq<Action>, k: nat, m: nat, v: nat, c: nat)
    requires IsRun(states, acts) && k < m < |states| && acts[k] == Sleep(v, c)
    requires forall n :: k < n < m ==> !Rouses(acts[n], v, c)
    ensures v < |states[m].procs| && states[m].procs[v].status == SLEEPING && states[m].procs[v].chan == Other(c)
    ensures m < |acts| && Rouses(acts[m], v, c) ==>
              v < |states[m + 1].procs| && states[m + 1].procs[v].status == RUNNABLE
  {
    hide Inv, Exited, WaitStep, Start;
    if m > k + 1 {
      hide Apply;
      SleepsUntil(states, acts, k, m - 1, v, c);
      RunInv(states, acts, m - 1);
      AsleepStep(states[m - 1], acts[m - 1], v);
    }
    if m < |acts| {
      hide Apply;
      RunInv(states, acts, m);
      AsleepStep(states[m], acts[m], v);
    }
  }

  /** A process that yields is ready until it runs again. */
  lemma {:induction false} YieldsUntil(states: seq<State>, acts: seq<Action>, k: nat, m: nat, v: nat)
    requires IsRun(states, acts) && k < m < |states| && acts[k] == Yield(v)
    requires forall n :: k < n < m ==> acts[n] != Dispatch(v)
    ensures v < |states[m].procs| && states[m].procs[v].status == RUNNABLE && Enabled(states[m], Dispatch(v))
  {
    hide Inv, Exited, WaitStep, Start;
    if m > k + 1 {
      hide Apply;
      YieldsUntil(states, acts, k, m - 1, v);
      RunInv(states, acts, m - 1);
      StaysReady(states[m - 1], acts[m - 1], v);
      KilledStep(states[m - 1], acts[m - 1], v);
    }
  }

  // ---- fork makes a child ----

  /** When fork is done there is a new process that can run, with a pid of its own, whose
      parent is the caller. */
  lemma ForkMakes(states: seq<State>, acts: seq<Action>, k: nat)
    requires IsRun(states, acts) && k < |acts| && acts[k].ForkDone?
    ensures var p, s, s' := acts[k].p, states[k], states[k + 1];
            var i := s.procs[p].pc.i;
            && i < |s.procs| == |s'.procs| && i != p && s'.procs[p].pc.User?
            && s.procs[i].status == EMBRYO && s'.procs[i].status == RUNNABLE && s'.procs[i].pc.User?
            && s'.procs[i].parent == p
            && (forall j :: 0 <= j < |s'.procs| && j != i ==> s'.procs[j].pid != s'.procs[i].pid)
  {
    RunInv(states, acts, k);
    var s, s' := states[k], states[k + 1];
    var i := s.procs[acts[k].p].pc.i;
    assert ForkOk(s, acts[k].p);
    forall j | 0 <= j < |s'.procs| && j != i ensures s'.procs[j].pid != s'.procs[i].pid {
      assert PidOk(s, i) && if j < i then PidsDiffer(s, j, i) else PidsDiffer(s, i, j);
    }
  }

  /** Process 0 alone, in user code or filling slot 1. */
  function World(status: Status, pc: Pc, child: Proc, nextpid: nat): State {
    State([Proc(status, 1, -1, Other(0), false, pc, -1), child], nextpid, 0, [], [])
  }

  const NEW_SLOT := Proc(UNUSED, 0, -1, Other(0), false, User, -1)

  lemma Runs()
    ensures Enabled(World(RUNNABLE, User, NEW_SLOT, 2), Dispatch(0))
    ensures Apply(World(RUNNABLE, User, NEW_SLOT, 2), Dispatch(0)) == World(RUNNING, User, NEW_SLOT, 2)
  {
  }

  lemma FailedFork()
    ensures var s1 := World(RUNNING, User, NEW_SLOT, 2);
            var s2 := World(RUNNING, Forking(1), NEW_SLOT.(status := EMBRYO, pid := 2, maker := 0), 3);
            && Enabled(s1, Alloc(0, 1)) && Apply(s1, Alloc(0, 1)) == s2
            && Enabled(s2, ForkFail(0))
            && Apply(s2, ForkFail(0)) == World(RUNNING, User, NEW_SLOT.(pid := 2, maker := 0), 3)
  {
    hide WaitStep, Exited, Wake;
  }

  /** kill finds a free slot by the pid in it, and fork then takes the slot. */
  lemma KilledSlot(child: Proc, n: nat)
    requires child.status == UNUSED && child.pid != 1
    ensures var s, s1 := World(RUNNING, User, child, n), World(RUNNING, User, child.(killed := true), n);
            var born := child.(status := EMBRYO, pid := n, killed := true, maker := 0);
            && Enabled(s, Kill(0, 1)) && Apply(s, Kill(0, 1)) == s1
            && Enabled(s1, Alloc(0, 1)) && Apply(s1, Alloc(0, 1)) == World(RUNNING, Forking(1), born, n + 1)
  {
    hide WaitStep, Exited, Wake;
  }

  /** kill(0) marks a free slot, and the next process in it is killed from birth. */
  lemma KillZero()
    ensures exists states: seq<State>, acts: seq<Action> ::
              && IsRun(states, acts) && |states| == 4 && |states[1].procs| == 2 && |states[3].procs| == 2
              && acts[1] == Kill(0, 1) && states[1].procs[1].pid == 0
              && states[3].procs[1].status == EMBRYO && states[3].procs[1].killed
  {
    hide Apply, Enabled;
    Runs();
    KilledSlot(NEW_SLOT, 2);
    var born := NEW_SLOT.(status := EMBRYO, pid := 2, killed := true, maker := 0);
    var states := [World(RUNNABLE, User, NEW_SLOT, 2), World(RUNNING, User, NEW_SLOT, 2),
                   World(RUNNING, User, NEW_SLOT.(killed := true), 2), World(RUNNING, Forking(1), born, 3)];
    assert IsRun(states, [Dispatch(0), Kill(0, 1), Alloc(0, 1)]);
  }

  /** A pid that a failed fork leaves behind can be killed too. */
  lemma BornKilled()
    ensures exists states: seq<State>, acts: seq<Action> ::
              && IsRun(states, acts) && |states| == 6 && |states[5].procs| == 2 && acts[2].ForkFail?
              && acts[3] == Kill(0, 1)
              && states[5].procs[1].status == EMBRYO && states[5].procs[1].killed
  {
    hide Apply, Enabled;
    var left := NEW_SLOT.(pid := 2, maker := 0);
    Runs();
    FailedFork();
    KilledSlot(left, 3);
    var states := [World(RUNNABLE, User, NEW_SLOT, 2), World(RUNNING, User, NEW_SLOT, 2),
                   World(RUNNING, Forking(1), left.(status := EMBRYO), 3), World(RUNNING, User, left, 3),
                   World(RUNNING, User, left.(killed := true), 3),
                   World(RUNNING, Forking(1), left.(status := EMBRYO, pid := 3, killed := true), 4)];
    assert IsRun(states, [Dispatch(0), Alloc(0, 1), ForkFail(0), Kill(0, 1), Alloc(0, 1)]);
  }
}
