/** The scans of the process table that the steps of ProcessTree stand for, as
    loops over ptable.proc (proc.c). */
module ProcessTable {
  import opened ProcessTree

  /** The first slot v with the pid is marked; if it slept it can run, and nothing else about
      it or any other slot has changed. */
  ghost predicate Struck(procs: seq<Proc>, procs': seq<Proc>, pid: int, v: nat) {
    && v < |procs| == |procs'| && procs[v].pid == pid && (forall j :: 0 <= j < v ==> procs[j].pid != pid)
    && procs'[v].killed && procs'[v].status != SLEEPING
    && (procs[v].status == SLEEPING ==> procs'[v].status == RUNNABLE)
    && (procs[v].status != SLEEPING ==> procs'[v].status == procs[v].status)
    && procs'[v] == procs[v].(killed := true, status := procs'[v].status)
    && (forall j :: 0 <= j < |procs| && j != v ==> procs'[j] == procs[j])
  }

  /** One round of wait by p: it reaps its first dead child k and frees the slot, or has no
      child or is killed and gives up, or sleeps; no other slot changes. */
  ghost predicate Waited(procs: seq<Proc>, procs': seq<Proc>, p: nat, k: nat, pid: int, asleep: bool) {
    && p < |procs| == |procs'| && k <= |procs|
    && (forall j :: 0 <= j < k ==> !(procs[j].parent == p && procs[j].status == ZOMBIE))
    && (forall j :: 0 <= j < |procs| && j != p && j != k ==> procs'[j] == procs[j])
    && if k < |procs| then
         && procs[k].parent == p && procs[k].status == ZOMBIE && pid == procs[k].pid && !asleep
         && procs'[k].status == UNUSED && procs'[k].pid == 0 && procs'[k].parent == -1 && !procs'[k].killed
         && (k != p ==> procs'[p] == procs[p].(status := RUNNING, pc := User))
       else
         && pid == -1 && (asleep <==> !procs[p].killed && exists j :: 0 <= j < |procs| && procs[j].parent == p)
         && procs'[p] == if asleep then procs[p].(status := SLEEPING, chan := OnProc(p), pc := Waiting)
                         else procs[p].(status := RUNNING, pc := User)
  }

  class Ptable {
    var procs: seq<Proc>
    var nextpid: nat
    const init: nat
    ghost var exited: seq<nat>
    ghost var reaped: seq<nat>

    ghost function S(): State reads this { State(procs, nextpid, init, exited, reaped) }

    /** userinit on an empty table of n slots. */
    constructor (n: nat, init: nat)
      requires init < n
      ensures Start(S()) && |procs| == n && this.init == init
    {
      this.init := init;
      nextpid, exited, reaped := 2, [], [];
      var free := Proc(UNUSED, 0, -1, Other(0), false, User, -1);
      procs := seq(n, i => if i == init then free.(status := RUNNABLE, pid := 1) else free);
    }

    /** allocproc up to its unlock: the first UNUSED slot, -1 if there is none. */
    method AllocProc(p: nat) returns (i: int)
      requires p < |procs| && procs[p].status == RUNNING && procs[p].pc.User?
      modifies this
      ensures i == -1 ==> S() == old(S()) && forall j :: 0 <= j < |procs| ==> procs[j].status != UNUSED
      ensures i != -1 ==> 0 <= i && Enabled(old(S()), Alloc(p, i)) && S() == Apply(old(S()), Alloc(p, i))
    {
      i := 0;
      while i < |procs|
        invariant 0 <= i <= |procs| && forall j :: 0 <= j < i ==> procs[j].status != UNUSED
      {
        if procs[i].status == UNUSED {
          procs := procs[p := procs[p].(pc := Forking(i))];
          procs := procs[i := procs[i].(status := EMBRYO, pid := nextpid, maker := p)];
          nextpid := nextpid + 1;
          return;
        }
        i := i + 1;
      }
      return -1;
    }

    method Wakeup1(chan: Chan)
      modifies this`procs
      ensures procs == Wake(old(procs), chan)
    {
      var i := 0;
      ghost var was := procs;
      while i < |procs|
        invariant 0 <= i <= |procs| == |was|
        invariant forall j :: 0 <= j < |was| ==> procs[j] == if j < i then Woken(was[j], chan) else was[j]
      {
        if procs[i].status == SLEEPING && procs[i].chan == chan {
          procs := procs[i := procs[i].(status := RUNNABLE)];
        }
        i := i + 1;
      }
    }

    /** exit under ptable.lock. */
    method Exit(p: nat)
      requires p < |procs| && procs[p].status == RUNNING && procs[p].pc.User? && p != init && init < |procs|
      modifies this
      ensures S() == Apply(old(S()), ProcessTree.Exit(p))
    {
      ghost var was := procs;
      Wakeup1(OnProc(procs[p].parent));
      var i := 0;
      while i < |procs|
        invariant 0 <= i <= |procs| == |was|
        invariant forall j :: 0 <= j < |was| ==> procs[j] == Midway(was, init, p, i, j)
        invariant reaped == old(reaped) && exited == old(exited) && nextpid == old(nextpid)
      {
        DeadNext(was, p, i);
        if procs[i].parent == p {
          procs := procs[i := procs[i].(parent := init)];
          if procs[i].status == ZOMBIE {
            Wakeup1(OnProc(init));
          }
        }
        i := i + 1;
      }
      assert DeadBelow(was, p, |was|) == HasDead(was, p);
      procs := procs[p := procs[p].(status := ZOMBIE)];
      exited := exited + [procs[p].pid];
      assert procs == Exited(was, init, p);
    }

    /** One round of wait under ptable.lock: a pid, -1 for nothing to wait for, or
        asleep. */
    method WaitRound(p: nat) returns (pid: int, asleep: bool)
      requires p < |procs|
      modifies this
      ensures S() == WaitStep(old(S()), p)
      ensures exists k: nat :: Waited(old(procs), procs, p, k, pid, asleep)
      ensures reaped == if pid >= 0 then old(reaped) + [pid] else old(reaped)
    {
      var havekids, k := false, 0;
      while k < |procs|
        invariant 0 <= k <= |procs| && procs == old(procs) && reaped == old(reaped) && exited == old(exited)
                  && nextpid == old(nextpid)
        invariant havekids <==> exists j :: 0 <= j < k && procs[j].parent == p
        invariant FirstDead(procs, p, k) == FirstDead(procs, p, 0)
        invariant forall j :: 0 <= j < k ==> !(procs[j].parent == p && procs[j].status == ZOMBIE)
      {
        if procs[k].parent == p {
          havekids := true;
          if procs[k].status == ZOMBIE {
            pid := procs[k].pid;
            assert DeadChild(procs, p, k);
            procs := procs[p := procs[p].(status := RUNNING, pc := User)];
            procs := procs[k := Reaped(procs[k])];
            reaped := reaped + [pid];
            assert Waited(old(procs), procs, p, k, pid, false);
            return pid, false;
          }
        }
        k := k + 1;
      }
      if !havekids || procs[p].killed {
        procs := procs[p := procs[p].(status := RUNNING, pc := User)];
        assert Waited(old(procs), procs, p, |procs|, -1, false);
        return -1, false;
      }
      procs := procs[p := procs[p].(status := SLEEPING, chan := OnProc(p), pc := Waiting)];
      assert Waited(old(procs), procs, p, |procs|, -1, true);
      return -1, true;
    }

    /** kill; sys_kill passes on any number. */
    method Kill(p: nat, pid: int) returns (r: int)
      requires p < |procs| && procs[p].status == RUNNING
      modifies this`procs
      ensures r == 0 || r == -1
      ensures r == -1 ==> procs == old(procs) && forall j :: 0 <= j < |procs| ==> procs[j].pid != pid
      ensures r == 0 ==>
                exists v: nat ::
                  Struck(old(procs), procs, pid, v) && Enabled(old(S()), ProcessTree.Kill(p, v))
                  && S() == Apply(old(S()), ProcessTree.Kill(p, v))
    {
      var v: nat := 0;
      while v < |procs|
        invariant 0 <= v <= |procs| && procs == old(procs) && forall j :: 0 <= j < v ==> procs[j].pid != pid
      {
        if procs[v].pid == pid {
          procs := procs[v := procs[v].(killed := true)];
          if procs[v].status == SLEEPING {
            procs := procs[v := procs[v].(status := RUNNABLE)];
          }
          assert Struck(old(procs), procs, pid, v) && S() == Apply(old(S()), ProcessTree.Kill(p, v));
          return 0;
        }
        v := v + 1;
      }
      return -1;
    }
  }

  predicate DeadBelow(procs: seq<Proc>, p: int, i: nat) {
    exists j :: 0 <= j < i && DeadChild(procs, p, j)
  }

  lemma DeadNext(procs: seq<Proc>, p: int, i: nat)
    ensures DeadBelow(procs, p, i + 1) <==> DeadBelow(procs, p, i) || DeadChild(procs, p, i)
  {
    if DeadChild(procs, p, i) { assert DeadBelow(procs, p, i + 1); }
  }

  /** Slot j while exit's loop over the children of p is at slot i. */
  function Midway(procs: seq<Proc>, init: nat, p: nat, i: nat, j: nat): Proc
    requires j < |procs| && p < |procs|
  {
    var q := Woken(procs[j], OnProc(procs[p].parent));
    var q := if DeadBelow(procs, p, i) then Woken(q, OnProc(init)) else q;
    if j < i && q.parent == p then q.(parent := init) else q
  }
}
