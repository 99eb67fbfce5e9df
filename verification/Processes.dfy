/** The process table as the kernel changes it in place, against the steps of WaitExit. */
module Processes {
  import opened Options
  import opened WaitExit

  /** How a call ends: it returns, the caller sleeps, kpanic, or a dereference of NULL. */
  datatype End = Returned | Asleep | Panicked | Crashed

  class Table {
    var procs: map<nat, Proc>
    var nextPid: nat
    var conds: map<nat, seq<nat>>
    var nextCond: nat
    ghost var reaped: seq<nat>

    constructor (pid: nat)
      requires pid > 0
      ensures View() == Boot(pid) && Inv(View(), pid)
    {
      procs, nextPid := map[pid := Proc(0, false, 0, seq(MAX_CHILDREN, j => None), None, Running)], pid + 1;
      conds, nextCond, reaped := map[], 0, [];
      new;
      BootInv(pid);
    }

    ghost function View(): State
      reads this
    {
      State(procs, nextPid, conds, nextCond, reaped)
    }

    /** _find_dead_child: the slots in order. */
    method FindDeadChild(p: nat) returns (r: Option<nat>)
      requires p in procs
      ensures r == DeadChild(View(), procs[p].children)
      ensures r.Some? <==> ZombieChild(View(), p)
    {
      NoDeadChild(View(), p);
      var children := procs[p].children;
      var i := 0;
      while i < |children|
        invariant 0 <= i <= |children|
        invariant DeadChild(View(), children, i) == DeadChild(View(), children)
      {
        if children[i].Some? && children[i].value in procs && procs[children[i].value].zombie { return Some(i); }
        i := i + 1;
      }
      r := None;
    }

    /** cond_signal: waiters come off the end of the list, each one's thread becoming eligible. */
    method SignalAll(k: nat)
      requires k in conds
      modifies this`procs, this`conds
      ensures procs == Signal(old(procs), old(conds[k]))
      ensures conds == old(conds)[k := []]
    {
      ghost var all := conds[k];
      assert Signal(procs, all[|all|..]) == procs;
      while conds[k] != []
        invariant k in conds && conds == old(conds)[k := conds[k]]
        invariant |conds[k]| <= |all| && conds[k] == all[..|conds[k]|]
        invariant procs == Signal(old(procs), all[|conds[k]|..])
        decreases |conds[k]|
      {
        var n := |conds[k]| - 1;
        var q := conds[k][n];
        assert all[n..] == [q] + all[n + 1..];
        if q in procs { procs := procs[q := procs[q].(thread := Wake(procs[q].thread))]; }
        conds := conds[k := conds[k][..n]];
      }
    }

    /** fork, as far as the process table goes; false when the child slots are used up. */
    method ForkProcess(p: nat) returns (ok: bool)
      requires p in procs
      modifies this
      ensures Fork(old(View()), p) == Ok(View())
      ensures ok <==> FreeSlot(old(procs)[p].children).Some?
    {
      var children := procs[p].children;
      var i := 0;
      while i < |children| && children[i].Some?
        invariant 0 <= i <= |children|
        invariant FreeSlot(children, i) == FreeSlot(children)
      {
        i := i + 1;
      }
      if i == |children| { return false; }
      var child := Proc(p, false, 0, seq(MAX_CHILDREN, j => None), None, Running);
      procs := procs[p := procs[p].(children := children[i := Some(nextPid)])];
      procs := procs[nextPid := child];
      nextPid := nextPid + 1;
      ok := true;
    }

    method ExitProcess(p: nat, code: int) returns (end: End)
      requires p in procs
      modifies this
      ensures match Exit(old(View()), p, code)
              case Ok(s) => end == Returned && View() == s
              case ChildMissing => false
              case Fault => end == Crashed
    {
      procs := procs[p := procs[p].(zombie := true, exitCode := code, thread := Exited)];
      var parent := procs[p].parent;
      if parent == 0 { return Returned; }
      if parent !in procs { return Crashed; }
      var cond := procs[parent].waitCond;
      if cond.Some? {
        if cond.value !in conds { return Crashed; }
        SignalAll(cond.value);
        conds := conds - {cond.value};
        procs := procs[parent := procs[parent].(waitCond := None)];
      }
      end := Returned;
    }

    /** From CHILD_FOUND on. */
    method ReapChild(p: nat, i: nat)
      requires p in procs && i < |procs[p].children| && procs[p].children[i].Some?
      modifies this
      ensures Reap(old(View()), p, i) == Ok(View())
    {
      var child := procs[p].children[i].value;
      procs := procs[p := procs[p].(children := procs[p].children[i := None], thread := Running)];
      procs := procs - {child};
      reaped := reaped + [child];
    }

    method WaitForChild(p: nat, condMem: bool, itemMem: bool) returns (end: End)
      requires p in procs
      modifies this
      ensures match Wait(old(View()), p, condMem, itemMem)
              case Ok(s) => (end == Returned || end == Asleep) && View() == s
              case ChildMissing => end == Panicked
              case Fault => end == Crashed
      ensures end == Asleep <==> Wait(old(View()), p, condMem, itemMem).Ok? &&
                                 HasChild(old(procs)[p].children) && !ZombieChild(old(View()), p)
    {
      if !HasChild(procs[p].children) { return Returned; }
      var dead := FindDeadChild(p);
      if dead.Some? {
        ReapChild(p, dead.value);
        return Returned;
      }
      if procs[p].waitCond.None? {
        if !condMem { return Crashed; }
        procs := procs[p := procs[p].(waitCond := Some(nextCond))];
        conds := conds[nextCond := []];
        nextCond := nextCond + 1;
      }
      if !itemMem { return Panicked; }
      var k := procs[p].waitCond.value;
      if k !in conds { return Crashed; }
      conds := conds[k := conds[k] + [p]];
      procs := procs[p := procs[p].(thread := Blocked(k))];
      end := Asleep;
    }

    /** wait after cond_wait has returned. */
    method WaitResumes(p: nat) returns (end: End)
      requires p in procs
      modifies this
      ensures match Resume(old(View()), p)
              case Ok(s) => end == Returned && View() == s
              case ChildMissing => end == Panicked && View() == old(View())
              case Fault => false
    {
      var dead := FindDeadChild(p);
      if dead.None? { return Panicked; }
      ReapChild(p, dead.value);
      end := Returned;
    }
  }
}
