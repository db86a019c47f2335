/** sleep and wakeup (proc.c) over spin locks (spinlock.c), for any number of
    processes, channels and condition locks, in any interleaving. Each channel
    stands for a condition that is read and changed only under that channel's
    lock; whoever makes a condition true owes the channel a wakeup, which may
    come before or after the lock is released. A channel may be guarded by
    ptable.lock itself, as wait's is: then sleep swaps no locks and the wakeup is
    wakeup1, called with the lock held. */
module SleepWakeup {
  /** Locks are numbers; this one is ptable.lock. */
  const PTABLE: nat := 0

  /** Where a process is. A channel c is guarded by the lock lk(c). */
  datatype Pc =
    | Idle
    | Crit(l: nat)              // holds lock l, running its own code
    | SleepWant(c: nat)         // in sleep(c, lk(c)): wants ptable.lock
    | SleepLocked(c: nat)       // holds ptable.lock and still lk(c)
    | SleepCommit(c: nat)       // holds ptable.lock only, about to set SLEEPING
    | Sleeping(c: nat)
    | Runnable(c: nat)          // made RUNNABLE by a wakeup or a kill
    | Resumed(c: nat)           // running again, holding ptable.lock
    | Relock(c: nat)            // wants lk(c) back
    | WakeWant(c: nat, back: int)  // in wakeup(c), called holding lock back (-1: none)
    | WakeLoop(c: nat, i: nat, back: int)  // wakeup1 is at slot i

  /** A process and the channels it owes a wakeup. */
  datatype Proc = Proc(pc: Pc, owed: set<nat>)

  /** held maps each lock that is held to its holder; ready is the set of
      channels whose condition is true. */
  datatype State = State(procs: seq<Proc>, held: map<nat, nat>, ready: set<nat>)

  datatype Action =
    | Acquire(p: nat, l: nat)
    | Release(p: nat)
    | Change(p: nat, ready: set<nat>)
    | SleepCall(p: nat, c: nat)
    | SleepLock(p: nat)
    | SleepUnlock(p: nat)
    | SleepSet(p: nat)
    | Run(p: nat)
    | Resume(p: nat)
    | Reacquire(p: nat)
    | WakeCall(p: nat, c: nat)
    | WakeLock(p: nat)
    | WakeScan(p: nat)
    | WakeDone(p: nat)
    | Kill(p: nat, victim: nat)

  /** The locks a process at pc holds. */
  function Holds(lk: nat -> nat, pc: Pc): set<nat> {
    match pc
    case Crit(l) => {l}
    case SleepWant(c) => {lk(c)}
    case SleepLocked(c) => {PTABLE, lk(c)}
    case SleepCommit(_) => {PTABLE}
    case Resumed(_) => {PTABLE}
    case WakeWant(_, l) => if l < 0 then {} else {l}
    case WakeLoop(_, _, l) => if l < 0 then {PTABLE} else {PTABLE, l}
    case _ => {}
  }

  /** What a process returns to when wakeup(c), called holding l, is done. */
  function Back(l: int): Pc {
    if l < 0 then Idle else Crit(l)
  }

  ghost predicate Enabled(lk: nat -> nat, s: State, a: Action) {
    && a.p < |s.procs|
    && var pc, owed := s.procs[a.p].pc, s.procs[a.p].owed;
    match a
    case Acquire(_, l) => pc.Idle? && l !in s.held
    case Release(_) => pc.Crit?
    case Change(_, ready) => pc.Crit? && forall c :: (c in ready) != (c in s.ready) ==> lk(c) == pc.l
    case SleepCall(_, c) => pc.Crit? && lk(c) == pc.l && c !in s.ready && owed == {}
    case SleepLock(_) => pc.SleepWant? && PTABLE !in s.held
    case SleepUnlock(_) => pc.SleepLocked?
    case SleepSet(_) => pc.SleepCommit?
    case Run(_) => pc.Runnable? && PTABLE !in s.held
    case Resume(_) => pc.Resumed?
    case Reacquire(_) => pc.Relock? && lk(pc.c) !in s.held
    case WakeCall(_, c) => pc.Idle? || pc.Crit?
    case WakeLock(_) => pc.WakeWant? && PTABLE !in s.held
    case WakeScan(_) => pc.WakeLoop? && pc.i < |s.procs|
    case WakeDone(_) => pc.WakeLoop? && pc.i >= |s.procs|
    case Kill(_, v) => v < |s.procs| && v != a.p && s.procs[v].pc.Sleeping? && PTABLE !in s.held
  }

  function SetPc(s: State, p: nat, pc: Pc): State
    requires p < |s.procs|
  {
    s.(procs := s.procs[p := s.procs[p].(pc := pc)])
  }

  ghost function Apply(lk: nat -> nat, s: State, a: Action): State
    requires Enabled(lk, s, a)
  {
    var p, pc, owed := a.p, s.procs[a.p].pc, s.procs[a.p].owed;
    match a
    case Acquire(_, l) => SetPc(s, p, Crit(l)).(held := s.held[l := p])
    case Release(_) => SetPc(s, p, Idle).(held := s.held - {pc.l})
    case Change(_, ready) => s.(ready := ready, procs := s.procs[p := Proc(pc, owed + (ready - s.ready))])
    case SleepCall(_, c) => SetPc(s, p, if pc.l != PTABLE then SleepWant(c) else SleepCommit(c))
    case SleepLock(_) => SetPc(s, p, SleepLocked(pc.c)).(held := s.held[PTABLE := p])
    case SleepUnlock(_) => SetPc(s, p, SleepCommit(pc.c)).(held := s.held - {lk(pc.c)})
    case SleepSet(_) => SetPc(s, p, Sleeping(pc.c)).(held := s.held - {PTABLE})
    case Run(_) => SetPc(s, p, Resumed(pc.c)).(held := s.held[PTABLE := p])
    case Resume(_) =>
      if lk(pc.c) == PTABLE then SetPc(s, p, Crit(PTABLE))
      else SetPc(s, p, Relock(pc.c)).(held := s.held - {PTABLE})
    case Reacquire(_) => SetPc(s, p, Crit(lk(pc.c))).(held := s.held[lk(pc.c) := p])
    case WakeCall(_, c) =>
      if pc.Idle? then SetPc(s, p, WakeWant(c, -1))
      else if pc.l != PTABLE then SetPc(s, p, WakeWant(c, pc.l))
      else SetPc(s, p, WakeLoop(c, 0, PTABLE))
    case WakeLock(_) => SetPc(s, p, WakeLoop(pc.c, 0, pc.back)).(held := s.held[PTABLE := p])
    case WakeScan(_) =>
      var s1 := if s.procs[pc.i].pc == Sleeping(pc.c) then SetPc(s, pc.i, Runnable(pc.c)) else s;
      SetPc(s1, p, WakeLoop(pc.c, pc.i + 1, pc.back))
    case WakeDone(_) =>
      var s1 := s.(procs := s.procs[p := Proc(Back(pc.back), owed - {pc.c})]);
      if pc.back == PTABLE then s1 else s1.(held := s.held - {PTABLE})
    case Kill(_, v) => SetPc(s, v, Runnable(s.procs[v].pc.c))
  }

  /** kill makes a sleeper ready to run, and touches no one else. */
  lemma KillWakes(lk: nat -> nat, s: State, p: nat, v: nat)
    requires Enabled(lk, s, Kill(p, v))
    ensures var s' := Apply(lk, s, Kill(p, v));
            && s'.procs[v].pc.Runnable? && Enabled(lk, s', Run(v)) && |s'.procs| == |s.procs|
            && (forall q :: 0 <= q < |s.procs| && q != v ==> s'.procs[q] == s.procs[q])
  {
  }

  /** A change under the lock takes effect at once, and whoever makes a condition true owes
      its wakeup. */
  lemma ChangeOwes(lk: nat -> nat, s: State, p: nat, ready: set<nat>)
    requires Enabled(lk, s, Change(p, ready))
    ensures var s' := Apply(lk, s, Change(p, ready));
            && s'.ready == ready && s'.held == s.held && |s'.procs| == |s.procs|
            && (forall c :: c in s'.procs[p].owed <==> c in s.procs[p].owed || (c in ready && c !in s.ready))
            && (forall q :: 0 <= q < |s.procs| && q != p ==> s'.procs[q] == s.procs[q])
  {
  }

  // ---- the invariant ----

  /** The process holds what its pc says it holds, and waits only for locks that
      it does not hold. */
  ghost predicate Holder(lk: nat -> nat, s: State, p: nat)
    requires p < |s.procs|
  {
    var pc := s.procs[p].pc;
    && (forall l :: l in Holds(lk, pc) ==> l in s.held && s.held[l] == p)
    && (pc.SleepWant? || pc.SleepLocked? || pc.Relock? ==> lk(pc.c) != PTABLE)
    && (pc.WakeWant? ==> pc.back != PTABLE)
  }

  /** A lock that is held is held by a process that knows it. */
  ghost predicate Held(lk: nat -> nat, s: State, l: nat)
    requires l in s.held
  {
    s.held[l] < |s.procs| && l in Holds(lk, s.procs[s.held[l]].pc)
  }

  ghost predicate LocksOk(lk: nat -> nat, s: State) {
    && (forall p :: 0 <= p < |s.procs| ==> Holder(lk, s, p))
    && (forall l :: l in s.held ==> Held(lk, s, l))
  }

  /** Not asleep, nor on the way in or out of sleep. */
  predicate Awake(pc: Pc) {
    pc.Idle? || pc.Crit? || pc.WakeWant? || pc.WakeLoop?
  }

  /** A process on its way to sleep with its lock still held has a false
      condition, and one that owes a wakeup is not on its way to sleep. */
  ghost predicate Quiet(s: State, p: nat)
    requires p < |s.procs|
  {
    var pc := s.procs[p].pc;
    && (pc.SleepWant? || pc.SleepLocked? ==> pc.c !in s.ready)
    && (s.procs[p].owed != {} ==> Awake(pc))
  }

  /** q owes channel c a wakeup whose scan has yet to reach slot j. */
  ghost predicate Owes(s: State, q: int, c: nat, j: int) {
    && 0 <= q < |s.procs| && c in s.procs[q].owed
    && !(s.procs[q].pc.WakeLoop? && s.procs[q].pc.c == c && s.procs[q].pc.i > j)
  }

  ghost predicate SomeoneOwes(s: State, c: nat, j: int) {
    exists q :: Owes(s, q, c, j)
  }

  predicate Committed(pc: Pc) {
    pc.Sleeping? || pc.SleepCommit?
  }

  /** A sleeper whose condition has come true is owed a wakeup. */
  ghost predicate Awaited(s: State, j: nat)
    requires j < |s.procs|
  {
    Committed(s.procs[j].pc) && s.procs[j].pc.c in s.ready ==> SomeoneOwes(s, s.procs[j].pc.c, j)
  }

  ghost predicate Inv(lk: nat -> nat, s: State) {
    && LocksOk(lk, s)
    && (forall p :: 0 <= p < |s.procs| ==> Quiet(s, p))
    && (forall j :: 0 <= j < |s.procs| ==> Awaited(s, j))
  }

  ghost predicate Init(s: State) {
    s.held == map[] && forall p :: 0 <= p < |s.procs| ==> s.procs[p] == Proc(Idle, {})
  }

  /** A step changes what its own process holds, and nobody else's locks. */
  lemma OthersHold(lk: nat -> nat, s: State, a: Action, q: nat)
    requires Enabled(lk, s, a) && q < |s.procs| && q != a.p
    ensures var s' := Apply(lk, s, a); |s'.procs| == |s.procs| && Holds(lk, s'.procs[q].pc) == Holds(lk, s.procs[q].pc)
  {
  }

  /** A step gives and takes away exactly the locks its process gains and drops. */
  lemma OwnHold(lk: nat -> nat, s: State, a: Action, l: nat)
    requires Enabled(lk, s, a) && Holder(lk, s, a.p)
    requires l in s.held && s.held[l] == a.p ==> l in Holds(lk, s.procs[a.p].pc)
    ensures var s' := Apply(lk, s, a);
            && |s'.procs| == |s.procs|
            && (l in Holds(lk, s'.procs[a.p].pc) <==> l in s'.held && s'.held[l] == a.p)
            && (l in s'.held && s'.held[l] != a.p <==> l in s.held && s.held[l] != a.p)
            && (l in s'.held && l in s.held && s.held[l] != a.p ==> s'.held[l] == s.held[l])
  {
    if a.Acquire? || a.Release? || a.Change? || a.SleepCall? || a.SleepLock? {
    } else if a.SleepUnlock? || a.SleepSet? || a.Run? || a.Resume? {
    } else if a.Reacquire? || a.WakeCall? || a.WakeLock? {
    } else {
    }
  }

  lemma HolderKept(lk: nat -> nat, s: State, a: Action, p: nat)
    requires Inv(lk, s) && Enabled(lk, s, a) && p < |s.procs|
    ensures |Apply(lk, s, a).procs| == |s.procs| && Holder(lk, Apply(lk, s, a), p)
  {
    hide Quiet, Awaited, Held;
    var s' := Apply(lk, s, a);
    assert Holder(lk, s, p) && Holder(lk, s, a.p);
    if p != a.p { OthersHold(lk, s, a, p); }
    forall l | l in Holds(lk, s'.procs[p].pc) ensures l in s'.held && s'.held[l] == p {
      OwnHold(lk, s, a, l);
    }
  }

  lemma HeldKept(lk: nat -> nat, s: State, a: Action, l: nat)
    requires Inv(lk, s) && Enabled(lk, s, a) && l in Apply(lk, s, a).held
    ensures Held(lk, Apply(lk, s, a), l)
  {
    hide Quiet, Awaited, Apply, Holds;
    assert Holder(lk, s, a.p);
    assert l in s.held ==> Held(lk, s, l);
    OwnHold(lk, s, a, l);
    if Apply(lk, s, a).held[l] != a.p { OthersHold(lk, s, a, s.held[l]); }
  }

  lemma LocksKept(lk: nat -> nat, s: State, a: Action)
    requires Inv(lk, s) && Enabled(lk, s, a)
    ensures LocksOk(lk, Apply(lk, s, a))
  {
    var s' := Apply(lk, s, a);
    forall p | 0 <= p < |s'.procs| ensures Holder(lk, s', p) { HolderKept(lk, s, a, p); }
    forall l | l in s'.held ensures Held(lk, s', l) { HeldKept(lk, s, a, l); }
  }

  lemma QuietKept(lk: nat -> nat, s: State, a: Action, p: nat)
    requires Inv(lk, s) && Enabled(lk, s, a) && p < |s.procs|
    ensures |Apply(lk, s, a).procs| == |s.procs| && Quiet(Apply(lk, s, a), p)
  {
    hide Awaited, Held;
    var pc := s.procs[p].pc;
    assert Quiet(s, p) && Quiet(s, a.p) && Holder(lk, s, p) && Holder(lk, s, a.p);
    assert pc.SleepWant? || pc.SleepLocked? ==> lk(pc.c) in Holds(lk, pc);
    assert a.Change? ==> s.procs[a.p].pc.l in Holds(lk, s.procs[a.p].pc);
  }

  /** A debt survives every step but the end of its own wakeup. */
  lemma DebtKept(lk: nat -> nat, s: State, a: Action, q: int, c: nat, j: int)
    requires Inv(lk, s) && Enabled(lk, s, a) && Owes(s, q, c, j) && 0 <= j < |s.procs|
    ensures var s' := Apply(lk, s, a);
            || Owes(s', q, c, j)
            || (a.WakeScan? && a.p == q && s.procs[q].pc.c == c && s.procs[q].pc.i == j)
  {
  }

  lemma AwaitedKept(lk: nat -> nat, s: State, a: Action, j: nat)
    requires Inv(lk, s) && Enabled(lk, s, a) && j < |s.procs|
    ensures var s' := Apply(lk, s, a); |s'.procs| == |s.procs| && Awaited(s', j)
  {
    var s' := Apply(lk, s, a);
    if Committed(s'.procs[j].pc) && s'.procs[j].pc.c in s'.ready {
      var c := s'.procs[j].pc.c;
      if c !in s.ready {
        assert Owes(s', a.p, c, j);
      } else {
        assert Awaited(s, j) && Quiet(s, j);
        var q :| Owes(s, q, c, j);
        DebtKept(lk, s, a, q, c, j);
        assert Holder(lk, s, j) && Holder(lk, s, q);
        assert s.procs[j].pc.SleepCommit? ==> PTABLE in Holds(lk, s.procs[j].pc);
        assert s.procs[q].pc.WakeLoop? ==> PTABLE in Holds(lk, s.procs[q].pc);
        assert Owes(s', q, c, j);
      }
    }
  }

  lemma InvKept(lk: nat -> nat, s: State, a: Action)
    requires Inv(lk, s) && Enabled(lk, s, a)
    ensures Inv(lk, Apply(lk, s, a))
  {
    LocksKept(lk, s, a);
    forall p | 0 <= p < |s.procs| ensures Quiet(Apply(lk, s, a), p) { QuietKept(lk, s, a, p); }
    forall j | 0 <= j < |s.procs| ensures Awaited(Apply(lk, s, a), j) { AwaitedKept(lk, s, a, j); }
  }

  // ---- runs ----

  ghost predicate IsRun(lk: nat -> nat, states: seq<State>, acts: seq<Action>) {
    && |states| == |acts| + 1 && Init(states[0])
    && forall i :: 0 <= i < |acts| ==> Enabled(lk, states[i], acts[i]) && states[i + 1] == Apply(lk, states[i], acts[i])
  }

  lemma {:induction false} RunInv(lk: nat -> nat, states: seq<State>, acts: seq<Action>, i: nat)
    requires IsRun(lk, states, acts) && i < |states|
    ensures Inv(lk, states[i])
  {
    if i > 0 {
      RunInv(lk, states, acts, i - 1);
      InvKept(lk, states[i - 1], acts[i - 1]);
    }
  }

  /** No lost wakeup: in every state of every run, a process sleeping on a
      channel whose condition is true is owed a wakeup that will still reach
      it, by a process that is not itself asleep. */
  lemma NoLostWakeup(lk: nat -> nat, states: seq<State>, acts: seq<Action>, i: nat, j: nat)
    requires IsRun(lk, states, acts) && i < |states| && j < |states[i].procs|
    requires states[i].procs[j].pc.Sleeping? && states[i].procs[j].pc.c in states[i].ready
    ensures exists q :: Owes(states[i], q, states[i].procs[j].pc.c, j) && Awake(states[i].procs[q].pc)
  {
    RunInv(lk, states, acts, i);
    assert Awaited(states[i], j);
    var q :| Owes(states[i], q, states[i].procs[j].pc.c, j);
    assert Quiet(states[i], q);
  }

  /** Once every wakeup owed has been made, whoever sleeps has reason to. */
  lemma SleepersHaveReason(lk: nat -> nat, states: seq<State>, acts: seq<Action>, i: nat)
    requires IsRun(lk, states, acts) && i < |states|
    requires forall q :: 0 <= q < |states[i].procs| ==> states[i].procs[q].owed == {}
    ensures forall j :: 0 <= j < |states[i].procs| && states[i].procs[j].pc.Sleeping? ==>
              states[i].procs[j].pc.c !in states[i].ready
  {
    RunInv(lk, states, acts, i);
    forall j | 0 <= j < |states[i].procs| && states[i].procs[j].pc.Sleeping?
      ensures states[i].procs[j].pc.c !in states[i].ready
    {
      assert Awaited(states[i], j);
    }
  }

  /** Mutual exclusion. */
  lemma OneHolder(lk: nat -> nat, states: seq<State>, acts: seq<Action>, i: nat, p: nat, q: nat, l: nat)
    requires IsRun(lk, states, acts) && i < |states| && p < |states[i].procs| && q < |states[i].procs|
    requires l in Holds(lk, states[i].procs[p].pc) && l in Holds(lk, states[i].procs[q].pc)
    ensures p == q
  {
    RunInv(lk, states, acts, i);
    assert Holder(lk, states[i], p) && Holder(lk, states[i], q);
  }

  /** The step that takes a holder of ptable.lock on towards releasing it. */
  ghost function NextUnderPtable(s: State, p: nat): Action
    requires p < |s.procs|
  {
    match s.procs[p].pc
    case SleepLocked(_) => SleepUnlock(p)
    case SleepCommit(_) => SleepSet(p)
    case WakeLoop(_, i, _) => if i < |s.procs| then WakeScan(p) else WakeDone(p)
    case Resumed(_) => Resume(p)
    case _ => Release(p)
  }

  /** ptable.lock is never stuck, so a wakeup that is owed is never blocked for
      good: whoever holds the lock can always take its next step, and once it is
      free the process that owes the wakeup can go on. */
  lemma WakeupNotBlocked(lk: nat -> nat, states: seq<State>, acts: seq<Action>, i: nat, q: nat, c: nat)
    requires IsRun(lk, states, acts) && i < |states| && q < |states[i].procs| && c in states[i].procs[q].owed
    ensures var s := states[i];
            if PTABLE in s.held then s.held[PTABLE] < |s.procs| && Enabled(lk, s, NextUnderPtable(s, s.held[PTABLE]))
            else if s.procs[q].pc.WakeWant? then Enabled(lk, s, WakeLock(q))
            else Enabled(lk, s, WakeCall(q, c))
  {
    RunInv(lk, states, acts, i);
    var s := states[i];
    assert Quiet(s, q) && Holder(lk, s, q);
    assert PTABLE in s.held ==> Held(lk, s, PTABLE) && Holder(lk, s, s.held[PTABLE]);
    assert s.procs[q].pc.WakeLoop? ==> PTABLE in Holds(lk, s.procs[q].pc);
  }
}
