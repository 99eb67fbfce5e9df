/** What fork and wait do to the process table, and where the processes that are reaped come from. */
module WaitEffects {
  import opened Options
  import opened WaitExit

  // ----- fork -----

  /** A living process without children has come into the first free slot of `p`; nothing else has changed. */
  ghost predicate Born(s: State, s': State, p: nat)
    requires p in s.procs
  {
    exists i: nat ::
      && i < |s.procs[p].children| && s.procs[p].children[i].None?
      && (forall j :: 0 <= j < i ==> s.procs[p].children[j].Some?)
      && s.nextPid !in s.procs && s'.procs.Keys == s.procs.Keys + {s.nextPid} && s'.nextPid == s.nextPid + 1
      && s'.procs[p] == s.procs[p].(children := s.procs[p].children[i := Some(s.nextPid)])
      && (var child := s'.procs[s.nextPid];
          child.parent == p && !child.zombie && child.thread.Running? && !HasChild(child.children) &&
          child.waitCond.None?)
      && (forall q :: q in s.procs && q != p ==> s'.procs[q] == s.procs[q])
      && s'.conds == s.conds && s'.nextCond == s.nextCond && s'.reaped == s.reaped
  }

  /** fork makes a living child, or changes nothing exactly when all eight slots are taken. */
  lemma {:induction false} ForkEffect(s: State, p: nat, first: nat)
    requires Inv(s, first) && Enabled(s, ForkStep(p))
    ensures Fork(s, p).Ok? && |s.procs[p].children| == 8
    ensures var s' := Fork(s, p).state;
            if forall i :: 0 <= i < 8 ==> s.procs[p].children[i].Some? then s' == s
            else Born(s, s', p)
  {
    FirstFree(s.procs[p].children, 0);
    var s', r := Fork(s, p).state, FreeSlot(s.procs[p].children);
    if r.Some? {
      assert s.nextPid !in s.procs && p != s.nextPid;
      assert s'.procs.Keys == s.procs.Keys + {s.nextPid};
      assert s'.procs[p] == s.procs[p].(children := s.procs[p].children[r.value := Some(s.nextPid)]);
      assert Born(s, s', p);
    }
  }

  lemma {:induction false} FirstFree(children: seq<Option<nat>>, from: nat)
    requires from <= |children|
    ensures var r := FreeSlot(children, from); r.Some? ==> forall j :: from <= j < r.value ==> children[j].Some?
    decreases |children| - from
  {
    if from < |children| && children[from].Some? { FirstFree(children, from + 1); }
  }

  // ----- wait -----

  /** The first dead child of `p`, `c`, has left the table and its slot; nothing else has changed. */
  ghost predicate TookDead(s: State, s': State, p: nat, c: nat)
    requires p in s.procs
  {
    && c in s.procs && s.procs[c].zombie && c != p
    && s'.procs.Keys == s.procs.Keys - {c} && s'.reaped == s.reaped + [c]
    && (forall q :: q in s'.procs && q != p ==> s'.procs[q] == s.procs[q])
    && s'.nextPid == s.nextPid && s'.conds == s.conds && s'.nextCond == s.nextCond
    && exists i: nat ::
         && ChildAt(s, p, i, c) && (forall j, d :: 0 <= j < i && ChildAt(s, p, j, d) && d in s.procs ==>
                                    !s.procs[d].zombie)
         && s'.procs[p] == s.procs[p].(children := s.procs[p].children[i := None], thread := Running)
  }

  /** `p` sleeps alone on a new condition of its own; nothing else has changed. */
  ghost predicate FellAsleep(s: State, s': State, p: nat)
    requires p in s.procs
  {
    exists k: nat ::
      && k !in s.conds && s'.conds == s.conds[k := [p]]
      && s'.procs == s.procs[p := s.procs[p].(waitCond := Some(k), thread := Blocked(k))]
      && s'.nextPid == s.nextPid && s'.reaped == s.reaped
  }

  lemma {:induction false} FirstDead(s: State, children: seq<Option<nat>>, from: nat)
    requires from <= |children|
    ensures var r := DeadChild(s, children, from); r.Some? ==> forall j :: from <= j < r.value ==>
            !DeadAt(s, children, j)
    decreases |children| - from
  {
    if from < |children| && !DeadAt(s, children, from) { FirstDead(s, children, from + 1); }
  }

  /** What is destroyed when a slot is reaped that the scan has found. */
  lemma {:induction false} ReapTakesDead(s: State, p: nat, first: nat)
    requires Inv(s, first) && p in s.procs && ZombieChild(s, p)
    ensures var r := DeadChild(s, s.procs[p].children);
            && r.Some? && s.procs[p].children[r.value].Some? && Reap(s, p, r.value).Ok?
            && TookDead(s, Reap(s, p, r.value).state, p, s.procs[p].children[r.value].value)
  {
    hide Sleepers, Accounted;
    NoDeadChild(s, p);
    FirstDead(s, s.procs[p].children, 0);
    var i := DeadChild(s, s.procs[p].children).value;
    var c := s.procs[p].children[i].value;
    var s' := Reap(s, p, i).state;
    assert ChildAt(s, p, i, c);
    assert c != p;
    forall j, d | 0 <= j < i && ChildAt(s, p, j, d) && d in s.procs
      ensures !s.procs[d].zombie
    {
      assert !DeadAt(s, s.procs[p].children, j);
    }
    assert s'.procs[p] == s.procs[p].(children := s.procs[p].children[i := None], thread := Running);
  }

  lemma {:induction false} FallsAsleep(s: State, p: nat)
    requires p in s.procs && s.procs[p].waitCond.None? && forall k :: k in s.conds ==> k < s.nextCond
    requires HasChild(s.procs[p].children) && DeadChild(s, s.procs[p].children).None?
    ensures var r := Wait(s, p, true, true); r.Ok? && FellAsleep(s, r.state, p)
  {
    hide HasChild, DeadChild;
    var k, s' := s.nextCond, Wait(s, p, true, true).state;
    assert k !in s.conds && s.conds[k := []][k] + [p] == [p];
    assert s'.conds == s.conds[k := [p]];
  }

  /**
    wait, whole: it destroys a child exactly when one is dead, and then the first dead one; without
    children it changes nothing; with living children only, the caller falls asleep if memory allows.
    */
  lemma {:induction false} WaitEffect(s: State, p: nat, condMem: bool, itemMem: bool, first: nat)
    requires Inv(s, first) && Enabled(s, WaitStep(p, condMem, itemMem))
    ensures var r := Wait(s, p, condMem, itemMem);
            && (ZombieChild(s, p) ==> r.Ok? && exists c :: TookDead(s, r.state, p, c))
            && (!HasChild(s.procs[p].children) ==> r == Ok(s))
            && (HasChild(s.procs[p].children) && !ZombieChild(s, p) && condMem && itemMem ==>
                  r.Ok? && FellAsleep(s, r.state, p))
            && (r.Ok? && r.state.reaped != s.reaped ==> ZombieChild(s, p))
  {
    NoDeadChild(s, p);
    if ZombieChild(s, p) {
      ReapTakesDead(s, p, first);
      assert HasChild(s.procs[p].children);
    } else {
      assert SleeperOk(s, p);
      if HasChild(s.procs[p].children) && condMem && itemMem { FallsAsleep(s, p); }
    }
  }

  /** A woken parent destroys its first dead child. */
  lemma {:induction false} ResumeEffect(s: State, p: nat, first: nat)
    requires Inv(s, first) && Enabled(s, ResumeStep(p))
    ensures Resume(s, p).Ok? && exists c :: TookDead(s, Resume(s, p).state, p, c)
  {
    assert SleeperOk(s, p);
    NoDeadChild(s, p);
    ReapTakesDead(s, p, first);
  }

  // ----- Runs -----

  /** The only step that makes a zombie is that process's own exit. */
  lemma {:induction false} OnlyExitKills(s: State, t: Step, first: nat, c: nat)
    requires Inv(s, first) && Enabled(s, t) && Exec(s, t).Ok?
    ensures var s' := Exec(s, t).state;
            c in s'.procs && s'.procs[c].zombie ==> (c in s.procs && s.procs[c].zombie) || (t.ExitStep? && t.p == c)
  {
    hide Inv, DeadChild;
    match t
    case ForkStep(p) =>
    case ExitStep(p, code) => ExitEffect(s, p, code, first);
    case WaitStep(p, condMem, itemMem) =>
    case ResumeStep(p) =>
  }

  /** A process that a step adds to the reaped ones was a zombie before, and a child of the caller. */
  lemma {:induction false} OnlyDeadAreReaped(s: State, t: Step, first: nat, c: nat)
    requires Inv(s, first) && Enabled(s, t) && Exec(s, t).Ok?
    ensures c in Exec(s, t).state.reaped ==>
              c in s.reaped ||
              (c in s.procs && s.procs[c].zombie && s.procs[c].parent == t.p && (t.WaitStep? || t.ResumeStep?))
  {
    match t
    case ForkStep(p) =>
    case ExitStep(p, code) => ExitEffect(s, p, code, first);
    case WaitStep(p, condMem, itemMem) =>
      WaitEffect(s, p, condMem, itemMem, first);
      hide Wait, Sleepers, Accounted;
    case ResumeStep(p) =>
      ResumeEffect(s, p, first);
      hide Resume, Sleepers, Accounted;
  }

  /** Process `c` has called exit among the first `k` steps. */
  ghost predicate HasExited(steps: seq<Step>, k: nat, c: nat)
    requires k <= |steps|
  {
    exists j :: 0 <= j < k && steps[j].ExitStep? && steps[j].p == c
  }

  /** In every run from boot, whoever is a zombie or was reaped has called exit before. */
  lemma {:induction false} DeadHaveExited(states: seq<State>, steps: seq<Step>, pid: nat, k: nat, c: nat)
    requires pid > 0 && IsRun(states, steps) && states[0] == Boot(pid) && k < |states|
    ensures c in states[k].reaped || (c in states[k].procs && states[k].procs[c].zombie) ==> HasExited(steps, k, c)
    decreases k
  {
    if k > 0 {
      var j := k - 1;
      DeadHaveExited(states, steps, pid, j, c);
      BootInv(pid);
      RunKeeps(states, steps, pid, j);
      assert Enabled(states[j], steps[j]) && Exec(states[j], steps[j]) == Ok(states[j + 1]);
      hide Inv, Exec, Enabled;
      OnlyExitKills(states[j], steps[j], pid, c);
      OnlyDeadAreReaped(states[j], steps[j], pid, c);
    }
  }

  /** In every run from boot, a process is reaped by its own parent, and only when it is a zombie. */
  lemma {:induction false} ReapedByParent(states: seq<State>, steps: seq<Step>, pid: nat, k: nat, c: nat)
    requires pid > 0 && IsRun(states, steps) && states[0] == Boot(pid) && k < |steps|
    requires c in states[k + 1].reaped && c !in states[k].reaped
    ensures c in states[k].procs && states[k].procs[c].zombie && states[k].procs[c].parent == steps[k].p
    ensures steps[k].WaitStep? || steps[k].ResumeStep?
  {
    BootInv(pid);
    RunKeeps(states, steps, pid, k);
    assert Enabled(states[k], steps[k]) && Exec(states[k], steps[k]) == Ok(states[k + 1]);
    OnlyDeadAreReaped(states[k], steps[k], pid, c);
  }
}
