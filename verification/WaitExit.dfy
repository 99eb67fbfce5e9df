/**
  fork, exit and wait as atomic steps of a transition system: each system call
  runs up to the point where it gives the processor away.
  */
module WaitExit {
  import opened Options

  const MAX_CHILDREN: nat := 8

  /** Where a process's thread is: running user code, asleep on a condition, signalled but not yet run, or dead. */
  datatype Thread = Running | Blocked(cond: nat) | Woken | Exited

  datatype Proc = Proc(parent: nat, zombie: bool, exitCode: int, children: seq<Option<nat>>, waitCond: Option<nat>,
                       thread: Thread)

  /** `conds` gives the waiters of each allocated condition; `reaped` lists destroyed processes in order. */
  datatype State = State(procs: map<nat, Proc>, nextPid: nat, conds: map<nat, seq<nat>>, nextCond: nat,
                         reaped: seq<nat>)

  /** A step ends in a state, in kpanic, or in a dereference of NULL. */
  datatype Outcome = Ok(state: State) | ChildMissing | Fault

  // ----- Child slots -----

  function FreeSlot(children: seq<Option<nat>>, from: nat := 0): (r: Option<nat>)
    requires from <= |children|
    ensures r.Some? ==> from <= r.value < |children| && children[r.value].None?
    ensures r.None? ==> forall i :: from <= i < |children| ==> children[i].Some?
    decreases |children| - from
  {
    if from == |children| then None
    else if children[from].None? then Some(from)
    else FreeSlot(children, from + 1)
  }

  /** _find_dead_child */
  function DeadChild(s: State, children: seq<Option<nat>>, from: nat := 0): (r: Option<nat>)
    requires from <= |children|
    ensures r.Some? ==> from <= r.value < |children| && DeadAt(s, children, r.value)
    ensures r.None? ==> forall i :: from <= i < |children| ==> !DeadAt(s, children, i)
    decreases |children| - from
  {
    if from == |children| then None
    else if DeadAt(s, children, from) then Some(from)
    else DeadChild(s, children, from + 1)
  }

  predicate DeadAt(s: State, children: seq<Option<nat>>, i: nat)
    requires i < |children|
  {
    children[i].Some? && children[i].value in s.procs && s.procs[children[i].value].zombie
  }

  predicate HasChild(children: seq<Option<nat>>) {
    exists i :: 0 <= i < |children| && children[i].Some?
  }

  // ----- Steps -----

  function Fork(s: State, p: nat): Outcome
    requires p in s.procs
  {
    match FreeSlot(s.procs[p].children)
    case None => Ok(s)
    case Some(i) =>
      var c := s.nextPid;
      var child := Proc(p, false, 0, seq(MAX_CHILDREN, j => None), None, Running);
      var parent := s.procs[p].(children := s.procs[p].children[i := Some(c)]);
      Ok(s.(procs := s.procs[p := parent][c := child], nextPid := c + 1))
  }

  function Wake(t: Thread): Thread {
    if t.Blocked? then Woken else t
  }

  /** cond_signal: every waiter's thread becomes eligible. */
  function Signal(procs: map<nat, Proc>, waiters: seq<nat>): map<nat, Proc>
  {
    map q | q in procs :: if q in waiters then procs[q].(thread := Wake(procs[q].thread)) else procs[q]
  }

  function Exit(s: State, p: nat, code: int): Outcome
    requires p in s.procs
  {
    var dead := s.procs[p].(zombie := true, exitCode := code, thread := Exited);
    var procs := s.procs[p := dead];
    if dead.parent == 0 then Ok(s.(procs := procs))
    else if dead.parent !in procs then Fault
    else
      match procs[dead.parent].waitCond
      case None => Ok(s.(procs := procs))
      case Some(k) =>
        if k !in s.conds then Fault
        else
          var woken := Signal(procs, s.conds[k]);
          Ok(s.(procs := woken[dead.parent := woken[dead.parent].(waitCond := None)], conds := s.conds - {k}))
  }

  /** From CHILD_FOUND on: the slot is cleared and the child destroyed. */
  function Reap(s: State, p: nat, i: nat): Outcome
    requires p in s.procs && i < |s.procs[p].children| && s.procs[p].children[i].Some?
  {
    var c := s.procs[p].children[i].value;
    var parent := s.procs[p].(children := s.procs[p].children[i := None], thread := Running);
    Ok(s.(procs := s.procs[p := parent] - {c}, reaped := s.reaped + [c]))
  }

  /** `condMem` and `itemMem`: whether the two allocations on the way to sleep succeed. */
  function Wait(s: State, p: nat, condMem: bool, itemMem: bool): Outcome
    requires p in s.procs
  {
    var proc := s.procs[p];
    if !HasChild(proc.children) then Ok(s)
    else
      match DeadChild(s, proc.children)
      case Some(i) => Reap(s, p, i)
      case None =>
        if proc.waitCond.None? && !condMem then Fault
        else
          var k := if proc.waitCond.Some? then proc.waitCond.value else s.nextCond;
          var conds := if proc.waitCond.Some? then s.conds else s.conds[k := []];
          if !itemMem then ChildMissing
          else if k !in conds then Fault
          else
            Ok(s.(procs := s.procs[p := proc.(waitCond := Some(k), thread := Blocked(k))],
                  conds := conds[k := conds[k] + [p]],
                  nextCond := if proc.waitCond.Some? then s.nextCond else k + 1))
  }

  /** wait continues after cond_wait. */
  function Resume(s: State, p: nat): Outcome
    requires p in s.procs
  {
    match DeadChild(s, s.procs[p].children)
    case None => ChildMissing
    case Some(i) => Reap(s, p, i)
  }

  datatype Step = ForkStep(p: nat) | ExitStep(p: nat, code: int) | WaitStep(p: nat, condMem: bool, itemMem: bool) |
                  ResumeStep(p: nat)

  /** The scheduler may run this step: the thread is eligible and at that point of its code. */
  predicate Enabled(s: State, t: Step) {
    t.p in s.procs &&
    match t
    case ResumeStep(p) => s.procs[p].thread.Woken?
    case _ => s.procs[t.p].thread.Running?
  }

  function Exec(s: State, t: Step): Outcome
    requires Enabled(s, t)
  {
    match t
    case ForkStep(p) => Fork(s, p)
    case ExitStep(p, code) => Exit(s, p, code)
    case WaitStep(p, condMem, itemMem) => Wait(s, p, condMem, itemMem)
    case ResumeStep(p) => Resume(s, p)
  }

  /** One process, without a parent, running. */
  function Boot(pid: nat): State {
    State(map[pid := Proc(0, false, 0, seq(MAX_CHILDREN, j => None), None, Running)], pid + 1, map[], 0, [])
  }

  // ----- What every state keeps -----

  ghost predicate ChildAt(s: State, p: nat, i: nat, c: nat)
    requires p in s.procs
  {
    i < |s.procs[p].children| && s.procs[p].children[i] == Some(c)
  }

  /** Slots and parent fields describe one relation, and no slot dangles. */
  ghost predicate Family(s: State) {
    && (forall p :: p in s.procs ==> 0 < p < s.nextPid && |s.procs[p].children| == MAX_CHILDREN)
    && (forall p, i, c :: p in s.procs && ChildAt(s, p, i, c) ==> c in s.procs && c != p && s.procs[c].parent == p)
    && (forall p, i, j, c :: p in s.procs && ChildAt(s, p, i, c) && ChildAt(s, p, j, c) ==> i == j)
    && (forall c :: c in s.procs && s.procs[c].parent in s.procs ==> exists i :: ChildAt(s, s.procs[c].parent, i, c))
  }

  ghost predicate ZombieChild(s: State, p: nat)
    requires p in s.procs
  {
    exists i, c :: ChildAt(s, p, i, c) && c in s.procs && s.procs[c].zombie
  }

  /**
    A thread sleeps on the condition its process owns, alone, and only while it has no zombie child;
    a thread that was woken has one.
    */
  ghost predicate SleeperOk(s: State, p: nat)
    requires p in s.procs
  {
    var proc := s.procs[p];
    (proc.zombie <==> proc.thread.Exited?) &&
    match proc.thread
    case Blocked(k) => proc.waitCond == Some(k) && k in s.conds && s.conds[k] == [p] && !ZombieChild(s, p)
    case Woken => proc.waitCond == None && ZombieChild(s, p)
    case _ => proc.waitCond == None
  }

  ghost predicate Sleepers(s: State) {
    && (forall p :: p in s.procs ==> SleeperOk(s, p))
    && (forall k :: k in s.conds ==> k < s.nextCond)
  }

  /** Every process ever created is either still there or was reaped, once. */
  ghost predicate Accounted(s: State, first: nat) {
    && (forall c :: c in s.reaped ==> c !in s.procs && first <= c < s.nextPid)
    && (forall i, j :: 0 <= i < j < |s.reaped| ==> s.reaped[i] != s.reaped[j])
    && (forall c :: first <= c < s.nextPid ==> c in s.procs || c in s.reaped)
    && (forall c :: c in s.procs ==> first <= c && (s.procs[c].parent == 0 || first <= s.procs[c].parent < s.nextPid))
  }

  ghost predicate Inv(s: State, first: nat) {
    0 < first && Family(s) && Sleepers(s) && Accounted(s, first)
  }

  lemma {:induction false} BootInv(pid: nat)
    requires pid > 0
    ensures Inv(Boot(pid), pid)
  {
  }

  // ----- fork -----

  /** What fork does to the child relation: one new edge. */
  lemma {:induction false} ForkEdges(s: State, p: nat, i: nat)
    requires Family(s) && p in s.procs && FreeSlot(s.procs[p].children) == Some(i)
    ensures Fork(s, p).Ok?
    ensures var s', c := Fork(s, p).state, s.nextPid;
            && c !in s.procs && s'.procs.Keys == s.procs.Keys + {c}
            && s'.procs[c].parent == p && s'.nextPid == c + 1
            && (forall q :: q in s'.procs ==> |s'.procs[q].children| == MAX_CHILDREN)
            && (forall q :: q in s.procs ==> s'.procs[q].parent == s.procs[q].parent)
            && forall q, j, d :: q in s'.procs ==>
                 (ChildAt(s', q, j, d) <==> (q == p && j == i && d == c) || (q in s.procs && ChildAt(s, q, j, d)))
  {
    var s', c := Fork(s, p).state, s.nextPid;
    forall q, j, d | q in s'.procs
      ensures ChildAt(s', q, j, d) <==> (q == p && j == i && d == c) || (q in s.procs && ChildAt(s, q, j, d))
    {
    }
  }

  lemma {:induction false} ForkKeeps(s: State, p: nat, first: nat)
    requires Inv(s, first) && Enabled(s, ForkStep(p))
    ensures Fork(s, p).Ok? && Inv(Fork(s, p).state, first)
  {
    hide Family, Sleepers, Accounted;
    var r := FreeSlot(s.procs[p].children);
    if r.Some? {
      ForkFamily(s, p, r.value, first);
      ForkSleepers(s, p, r.value, first);
      ForkAccounted(s, p, r.value, first);
    }
  }

  lemma {:induction false} ForkAccounted(s: State, p: nat, i: nat, first: nat)
    requires Inv(s, first) && p in s.procs && FreeSlot(s.procs[p].children) == Some(i)
    ensures Accounted(Fork(s, p).state, first)
  {
    hide Sleepers;
  }

  lemma {:induction false} ForkFamily(s: State, p: nat, i: nat, first: nat)
    requires Inv(s, first) && p in s.procs && FreeSlot(s.procs[p].children) == Some(i)
    ensures Family(Fork(s, p).state)
  {
    ForkEdges(s, p, i);
    ForkParents(s, p, i, first);
    ForkSlots(s, p, i, first);
    hide FreeSlot, ChildAt, Fork, Sleepers, Accounted;
    assert forall q :: q in s.procs ==> 0 < q < s.nextPid;
  }

  lemma {:induction false} ForkSlots(s: State, p: nat, i: nat, first: nat)
    requires Inv(s, first) && p in s.procs && FreeSlot(s.procs[p].children) == Some(i)
    ensures var s' := Fork(s, p).state;
            && (forall q, j, d :: q in s'.procs && ChildAt(s', q, j, d) ==>
                  d in s'.procs && d != q && s'.procs[d].parent == q)
            && (forall q, j, k, d :: q in s'.procs && ChildAt(s', q, j, d) && ChildAt(s', q, k, d) ==> j == k)
  {
    ForkEdges(s, p, i);
    hide FreeSlot, ChildAt, Fork, Sleepers, Accounted;
  }

  lemma {:induction false} ForkParents(s: State, p: nat, i: nat, first: nat)
    requires Inv(s, first) && p in s.procs && FreeSlot(s.procs[p].children) == Some(i)
    ensures var s' := Fork(s, p).state;
            forall d :: d in s'.procs && s'.procs[d].parent in s'.procs ==>
                exists j :: ChildAt(s', s'.procs[d].parent, j, d)
  {
    var s', c := Fork(s, p).state, s.nextPid;
    ForkEdges(s, p, i);
    assert forall q :: q in s.procs ==> s.procs[q].parent < s.nextPid;
    hide FreeSlot, ChildAt, Fork, Sleepers, Accounted;
    forall d | d in s'.procs && s'.procs[d].parent in s'.procs
      ensures exists j :: ChildAt(s', s'.procs[d].parent, j, d)
    {
      if d == c {
        assert ChildAt(s', p, i, c);
      } else {
        var j :| ChildAt(s, s.procs[d].parent, j, d);
        assert ChildAt(s', s.procs[d].parent, j, d);
      }
    }
  }

  /** The new edge leads to a living process, so nobody gains a zombie child. */
  lemma {:induction false} ForkZombies(s: State, p: nat, i: nat, q: nat)
    requires Family(s) && p in s.procs && FreeSlot(s.procs[p].children) == Some(i) && q in s.procs
    ensures ZombieChild(Fork(s, p).state, q) <==> ZombieChild(s, q)
  {
    var s', c := Fork(s, p).state, s.nextPid;
    ForkEdges(s, p, i);
    assert !s'.procs[c].zombie && forall d :: d in s.procs ==> s'.procs[d].zombie == s.procs[d].zombie;
    hide FreeSlot, ChildAt, Fork;
    if ZombieChild(s, q) {
      var j, d :| ChildAt(s, q, j, d) && d in s.procs && s.procs[d].zombie;
      assert ChildAt(s', q, j, d);
    }
    if ZombieChild(s', q) {
      var j, d :| ChildAt(s', q, j, d) && d in s'.procs && s'.procs[d].zombie;
      assert ChildAt(s, q, j, d);
    }
  }

  lemma {:induction false} ForkSleepers(s: State, p: nat, i: nat, first: nat)
    requires Inv(s, first) && p in s.procs && FreeSlot(s.procs[p].children) == Some(i) && s.procs[p].thread.Running?
    ensures Sleepers(Fork(s, p).state)
  {
    var s', c := Fork(s, p).state, s.nextPid;
    forall q | q in s.procs
      ensures ZombieChild(s', q) <==> ZombieChild(s, q)
    {
      ForkZombies(s, p, i, q);
    }
    hide FreeSlot, ChildAt, ZombieChild, Accounted;
  }

  // ----- exit -----

  /** Same processes with the same parents and children. */
  ghost predicate SameFamily(s: State, s': State) {
    s'.procs.Keys == s.procs.Keys && s'.nextPid == s.nextPid && s'.reaped == s.reaped &&
    forall q :: q in s.procs ==> s'.procs[q].parent == s.procs[q].parent && s'.procs[q].children == s.procs[q].children
  }

  lemma {:induction false} SameFamilyKeeps(s: State, s': State, first: nat)
    requires Family(s) && Accounted(s, first) && SameFamily(s, s')
    ensures Family(s') && Accounted(s', first)
    ensures forall q, i, c :: q in s.procs ==> (ChildAt(s', q, i, c) <==> ChildAt(s, q, i, c))
  {
    assert forall q, i, c :: q in s.procs ==> (ChildAt(s', q, i, c) <==> ChildAt(s, q, i, c));
    hide ChildAt;
  }

  /** A process is a zombie child of its parent alone. */
  lemma {:induction false} NewZombie(s: State, s': State, p: nat, q: nat)
    requires Family(s) && p in s.procs && q in s.procs && s'.procs.Keys == s.procs.Keys
    requires forall r, i, c :: r in s.procs ==> (ChildAt(s', r, i, c) <==> ChildAt(s, r, i, c))
    requires forall d :: d in s.procs ==> s'.procs[d].zombie == (d == p || s.procs[d].zombie)
    ensures q != s.procs[p].parent ==> (ZombieChild(s', q) <==> ZombieChild(s, q))
    ensures q == s.procs[p].parent ==> ZombieChild(s', q)
  {
    hide Inv;
    if q == s.procs[p].parent {
      var i :| ChildAt(s, q, i, p);
      assert ChildAt(s', q, i, p);
    } else {
      if ZombieChild(s, q) {
        var i, d :| ChildAt(s, q, i, d) && d in s.procs && s.procs[d].zombie;
        assert ChildAt(s', q, i, d);
      }
      if ZombieChild(s', q) {
        var i, d :| ChildAt(s', q, i, d) && d in s'.procs && s'.procs[d].zombie;
        assert ChildAt(s, q, i, d);
      }
    }
  }

  /** exit reaches for its parent's process; it faults exactly when that process has been destroyed. */
  lemma {:induction false} ExitFaultsIff(s: State, p: nat, code: int, first: nat)
    requires Inv(s, first) && Enabled(s, ExitStep(p, code))
    ensures Exit(s, p, code).Fault? <==> s.procs[p].parent in s.reaped
    ensures !Exit(s, p, code).ChildMissing?
  {
    var par := s.procs[p].parent;
    if par != 0 && par in s.procs {
      assert SleeperOk(s, par);
      assert par != p;
    }
  }

  /** The process after an exit: the caller is dead, a sleeping parent is awake, nobody else has changed. */
  function AfterExit(s: State, p: nat, code: int, q: nat): Proc
    requires p in s.procs && q in s.procs
  {
    if q == p then s.procs[p].(zombie := true, exitCode := code, thread := Exited)
    else if q == s.procs[p].parent && s.procs[q].waitCond.Some? then s.procs[q].(waitCond := None, thread := Woken)
    else s.procs[q]
  }

  lemma {:induction false} ExitEffect(s: State, p: nat, code: int, first: nat)
    requires Inv(s, first) && Enabled(s, ExitStep(p, code)) && Exit(s, p, code).Ok?
    ensures var s' := Exit(s, p, code).state;
            && s'.procs.Keys == s.procs.Keys && s'.nextPid == s.nextPid && s'.reaped == s.reaped
            && s'.nextCond == s.nextCond && s.procs[p].parent != p
            && (forall q :: q in s.procs ==> s'.procs[q] == AfterExit(s, p, code, q))
            && (forall k :: k in s'.conds ==> k in s.conds && s'.conds[k] == s.conds[k])
            && (forall k :: k in s.conds && k !in s'.conds ==> s.conds[k] == [s.procs[p].parent])
  {
    hide Family, Accounted, ZombieChild;
    var par := s.procs[p].parent;
    NotOwnParent(s, p, first);
    assert par in s.procs ==> SleeperOk(s, par);
  }

  lemma {:induction false} NotOwnParent(s: State, p: nat, first: nat)
    requires Inv(s, first) && p in s.procs
    ensures s.procs[p].parent != p && 0 !in s.procs
  {
  }

  lemma {:induction false} ExitKeeps(s: State, p: nat, code: int, first: nat)
    requires Inv(s, first) && Enabled(s, ExitStep(p, code)) && Exit(s, p, code).Ok?
    ensures Inv(Exit(s, p, code).state, first)
  {
    hide Exit, SleeperOk, Family, Accounted, ZombieChild;
    var s' := Exit(s, p, code).state;
    ExitEffect(s, p, code, first);
    SameFamilyKeeps(s, s', first);
    forall q | q in s'.procs
      ensures SleeperOk(s', q)
    {
      ExitSleeper(s, s', p, code, first, q);
    }
  }

  lemma {:induction false} ExitSleeper(s: State, s': State, p: nat, code: int, first: nat, q: nat)
    requires Inv(s, first) && p in s.procs && q in s.procs && s.procs[p].thread.Running? && s.procs[p].parent != p
    requires SameFamily(s, s')
    requires forall r :: r in s.procs ==> s'.procs[r] == AfterExit(s, p, code, r)
    requires forall k :: k in s'.conds ==> k in s.conds && s'.conds[k] == s.conds[k]
    requires forall k :: k in s.conds && k !in s'.conds ==> s.conds[k] == [s.procs[p].parent]
    ensures SleeperOk(s', q)
  {
    assert SleeperOk(s, q);
    SameFamilyKeeps(s, s', first);
    assert forall d :: d in s.procs ==> s'.procs[d].zombie == (d == p || s.procs[d].zombie);
    NewZombie(s, s', p, q);
    hide Family, Accounted, ZombieChild, ChildAt, Sleepers, SameFamily;
  }

  // ----- wait -----

  /** Reaping removes one edge and its child; what is left is unchanged. */
  lemma {:induction false} ReapEdges(s: State, p: nat, i: nat, c: nat)
    requires Family(s) && p in s.procs && ChildAt(s, p, i, c)
    ensures Reap(s, p, i).Ok?
    ensures var s' := Reap(s, p, i).state;
            && c != p && s'.procs.Keys == s.procs.Keys - {c}
            && (forall q :: q in s'.procs ==>
                s'.procs[q].parent == s.procs[q].parent && |s'.procs[q].children| == MAX_CHILDREN)
            && (forall q, j, d :: q in s'.procs ==>
                 (ChildAt(s', q, j, d) <==> (ChildAt(s, q, j, d) && !(q == p && j == i))))
            && (forall q, j, d :: q in s'.procs && ChildAt(s', q, j, d) ==> d != c)
  {
    var s' := Reap(s, p, i).state;
    forall q, j, d | q in s'.procs
      ensures ChildAt(s', q, j, d) <==> (ChildAt(s, q, j, d) && !(q == p && j == i))
    {
    }
    forall q, j, d | q in s'.procs && ChildAt(s', q, j, d)
      ensures d != c
    {
      assert ChildAt(s, q, j, d);
    }
  }

  lemma {:induction false} ReapFamily(s: State, p: nat, i: nat, c: nat, first: nat)
    requires Inv(s, first) && p in s.procs && ChildAt(s, p, i, c)
    ensures Reap(s, p, i).Ok? && Family(Reap(s, p, i).state)
  {
    var s' := Reap(s, p, i).state;
    ReapEdges(s, p, i, c);
    assert s'.nextPid == s.nextPid;
    ReapParents(s, p, i, c, first);
    hide ChildAt, Reap, Sleepers, Accounted;
  }

  lemma {:induction false} ReapParents(s: State, p: nat, i: nat, c: nat, first: nat)
    requires Inv(s, first) && p in s.procs && ChildAt(s, p, i, c)
    ensures var s' := Reap(s, p, i).state;
            forall d :: d in s'.procs && s'.procs[d].parent in s'.procs ==>
                exists j :: ChildAt(s', s'.procs[d].parent, j, d)
  {
    var s' := Reap(s, p, i).state;
    ReapEdges(s, p, i, c);
    hide ChildAt, Reap, Sleepers, Accounted;
    forall d | d in s'.procs && s'.procs[d].parent in s'.procs
      ensures exists j :: ChildAt(s', s'.procs[d].parent, j, d)
    {
      var j :| ChildAt(s, s.procs[d].parent, j, d);
      assert ChildAt(s', s.procs[d].parent, j, d);
    }
  }

  lemma {:induction false} ReapZombies(s: State, p: nat, i: nat, c: nat, q: nat)
    requires Family(s) && p in s.procs && ChildAt(s, p, i, c) && q in s.procs && q != p && q != c
    ensures var s' := Reap(s, p, i).state; q in s'.procs && (ZombieChild(s', q) <==> ZombieChild(s, q))
  {
    var s' := Reap(s, p, i).state;
    ReapEdges(s, p, i, c);
    assert forall d :: d in s'.procs ==> s'.procs[d].zombie == s.procs[d].zombie;
    hide ChildAt, Reap;
    if ZombieChild(s, q) {
      var j, d :| ChildAt(s, q, j, d) && d in s.procs && s.procs[d].zombie;
      assert ChildAt(s', q, j, d);
    }
    if ZombieChild(s', q) {
      var j, d :| ChildAt(s', q, j, d) && d in s'.procs && s'.procs[d].zombie;
      assert ChildAt(s, q, j, d);
    }
  }

  lemma {:induction false} ReapSleepers(s: State, p: nat, i: nat, c: nat, first: nat)
    requires Inv(s, first) && p in s.procs && ChildAt(s, p, i, c)
    requires s.procs[p].thread.Running? || s.procs[p].thread.Woken?
    ensures Reap(s, p, i).Ok? && Sleepers(Reap(s, p, i).state)
  {
    var s' := Reap(s, p, i).state;
    ReapEdges(s, p, i, c);
    forall q | q in s'.procs
      ensures SleeperOk(s', q)
    {
      assert SleeperOk(s, q);
      if q != p { ReapZombies(s, p, i, c, q); }
    }
  }

  lemma {:induction false} ReapAccounted(s: State, p: nat, i: nat, c: nat, first: nat)
    requires Inv(s, first) && p in s.procs && ChildAt(s, p, i, c)
    ensures Reap(s, p, i).Ok? && Accounted(Reap(s, p, i).state, first)
  {
    ReapEdges(s, p, i, c);
    hide Sleepers, ChildAt;
  }

  lemma {:induction false} ReapKeeps(s: State, p: nat, i: nat, c: nat, first: nat)
    requires Inv(s, first) && p in s.procs && ChildAt(s, p, i, c)
    requires s.procs[p].thread.Running? || s.procs[p].thread.Woken?
    ensures Reap(s, p, i).Ok? && Inv(Reap(s, p, i).state, first)
  {
    ReapFamily(s, p, i, c, first);
    ReapSleepers(s, p, i, c, first);
    ReapAccounted(s, p, i, c, first);
    hide Family, Sleepers, Accounted, Reap;
  }

  /** Going to sleep with no zombie child and a condition of one's own. */
  lemma {:induction false} BlockKeeps(s: State, p: nat, condMem: bool, first: nat)
    requires Inv(s, first) && p in s.procs && s.procs[p].thread.Running?
    requires HasChild(s.procs[p].children) && DeadChild(s, s.procs[p].children).None? && condMem
    ensures var r := Wait(s, p, condMem, true); r.Ok? && Inv(r.state, first)
  {
    assert SleeperOk(s, p);
    var s' := Wait(s, p, condMem, true).state;
    assert SameFamily(s, s');
    SameFamilyKeeps(s, s', first);
    forall q | q in s'.procs
      ensures SleeperOk(s', q)
    {
      assert SleeperOk(s, q);
      SameZombies(s, s', q);
      if q == p { NoDeadChild(s, p); }
    }
  }

  lemma {:induction false} SameZombies(s: State, s': State, q: nat)
    requires s'.procs.Keys == s.procs.Keys && q in s.procs
    requires forall r, i, c :: r in s.procs ==> (ChildAt(s', r, i, c) <==> ChildAt(s, r, i, c))
    requires forall d :: d in s.procs ==> s'.procs[d].zombie == s.procs[d].zombie
    ensures ZombieChild(s', q) <==> ZombieChild(s, q)
  {
    if ZombieChild(s, q) {
      var i, d :| ChildAt(s, q, i, d) && d in s.procs && s.procs[d].zombie;
      assert ChildAt(s', q, i, d);
    }
    if ZombieChild(s', q) {
      var i, d :| ChildAt(s', q, i, d) && d in s'.procs && s'.procs[d].zombie;
      assert ChildAt(s, q, i, d);
    }
  }

  /** The scan of the child slots finds a zombie child exactly when there is one. */
  lemma {:induction false} NoDeadChild(s: State, p: nat)
    requires p in s.procs
    ensures DeadChild(s, s.procs[p].children).Some? <==> ZombieChild(s, p)
    ensures DeadChild(s, s.procs[p].children).Some? ==>
              var i := DeadChild(s, s.procs[p].children).value;
              ChildAt(s, p, i, s.procs[p].children[i].value)
  {
    var r := DeadChild(s, s.procs[p].children);
    if r.Some? { assert ChildAt(s, p, r.value, s.procs[p].children[r.value].value); }
    if ZombieChild(s, p) {
      var i, c :| ChildAt(s, p, i, c) && c in s.procs && s.procs[c].zombie;
      assert DeadAt(s, s.procs[p].children, i);
    }
  }

  /**
    wait keeps everything when memory suffices; it ends in the panic exactly when the waiter's list
    item cannot be had.
    */
  lemma {:induction false} WaitKeeps(s: State, p: nat, condMem: bool, itemMem: bool, first: nat)
    requires Inv(s, first) && Enabled(s, WaitStep(p, condMem, itemMem))
    ensures var r := Wait(s, p, condMem, itemMem);
            var sleeps := HasChild(s.procs[p].children) && !ZombieChild(s, p);
            && (r.Ok? ==> Inv(r.state, first))
            && (r.ChildMissing? <==> sleeps && condMem && !itemMem)
            && (r.Fault? <==> sleeps && !condMem)
  {
    NoDeadChild(s, p);
    assert SleeperOk(s, p);
    var d := DeadChild(s, s.procs[p].children);
    if HasChild(s.procs[p].children) {
      if d.Some? {
        ReapKeeps(s, p, d.value, s.procs[p].children[d.value].value, first);
      } else if condMem && itemMem {
        BlockKeeps(s, p, condMem, first);
      }
    }
    hide Family, Sleepers, Accounted;
  }

  /** A woken parent always finds its zombie. */
  lemma {:induction false} ResumeKeeps(s: State, p: nat, first: nat)
    requires Inv(s, first) && Enabled(s, ResumeStep(p))
    ensures Resume(s, p).Ok? && Inv(Resume(s, p).state, first)
  {
    assert SleeperOk(s, p);
    NoDeadChild(s, p);
    var i := DeadChild(s, s.procs[p].children).value;
    ReapKeeps(s, p, i, s.procs[p].children[i].value, first);
  }

  // ----- Runs -----

  /** States and the steps between them, in any interleaving the scheduler allows. */
  ghost predicate IsRun(states: seq<State>, steps: seq<Step>) {
    |states| == |steps| + 1 &&
    forall k :: 0 <= k < |steps| ==> Enabled(states[k], steps[k]) && Exec(states[k], steps[k]) == Ok(states[k + 1])
  }

  lemma {:induction false} StepKeeps(s: State, t: Step, first: nat)
    requires Inv(s, first) && Enabled(s, t) && Exec(s, t).Ok?
    ensures Inv(Exec(s, t).state, first)
  {
    match t
    case ForkStep(p) => ForkKeeps(s, p, first);
    case ExitStep(p, code) => ExitKeeps(s, p, code, first);
    case WaitStep(p, condMem, itemMem) => WaitKeeps(s, p, condMem, itemMem, first);
    case ResumeStep(p) => ResumeKeeps(s, p, first);
  }

  lemma {:induction false} RunKeeps(states: seq<State>, steps: seq<Step>, first: nat, k: nat)
    requires IsRun(states, steps) && Inv(states[0], first) && k < |states|
    ensures Inv(states[k], first)
    decreases k
  {
    if k > 0 {
      RunKeeps(states, steps, first, k - 1);
      var j := k - 1;
      assert Enabled(states[j], steps[j]) && Exec(states[j], steps[j]) == Ok(states[j + 1]);
      StepKeeps(states[k - 1], steps[k - 1], first);
    }
  }

  /** In every reachable state no parent sleeps while it has a zombie child. */
  lemma {:induction false} NoLostWakeup(states: seq<State>, steps: seq<Step>, pid: nat, k: nat, p: nat)
    requires pid > 0 && IsRun(states, steps) && states[0] == Boot(pid) && k < |states| && p in states[k].procs
    ensures states[k].procs[p].thread.Blocked? ==> !ZombieChild(states[k], p)
    ensures states[k].procs[p].thread.Woken? ==> Resume(states[k], p).Ok?
  {
    BootInv(pid);
    RunKeeps(states, steps, pid, k);
    assert SleeperOk(states[k], p);
    if states[k].procs[p].thread.Woken? { ResumeKeeps(states[k], p, pid); }
  }

  /**
    From every reachable state, the "Child missing" panic needs a failed allocation in the very call,
    and a fault needs one too or a parent that was destroyed before its child.
    */
  lemma {:induction false} PanicNeedsExhaustion(states: seq<State>, steps: seq<Step>, pid: nat, k: nat, t: Step)
    requires pid > 0 && IsRun(states, steps) && states[0] == Boot(pid) && k < |states| && Enabled(states[k], t)
    ensures Exec(states[k], t).ChildMissing? ==> t.WaitStep? && !t.itemMem
    ensures Exec(states[k], t).Fault? ==>
              (t.WaitStep? && !t.condMem) || (t.ExitStep? && states[k].procs[t.p].parent in states[k].reaped)
  {
    BootInv(pid);
    RunKeeps(states, steps, pid, k);
    match t
    case ForkStep(p) => ForkKeeps(states[k], p, pid);
    case ExitStep(p, code) => ExitFaultsIff(states[k], p, code, pid);
    case WaitStep(p, condMem, itemMem) => WaitKeeps(states[k], p, condMem, itemMem, pid);
    case ResumeStep(p) => ResumeKeeps(states[k], p, pid);
  }

  /** Every process created in a run is, at each moment, either present or reaped, never both and never twice. */
  lemma {:induction false} ReapedOnce(states: seq<State>, steps: seq<Step>, pid: nat, k: nat, c: nat)
    requires pid > 0 && IsRun(states, steps) && states[0] == Boot(pid) && k < |states|
    requires pid <= c < states[k].nextPid
    ensures c in states[k].procs <==> c !in states[k].reaped
    ensures multiset(states[k].reaped)[c] <= 1
  {
    BootInv(pid);
    RunKeeps(states, steps, pid, k);
    CountDistinct(states[k].reaped, c);
  }

  lemma {:induction false} CountDistinct(a: seq<nat>, c: nat)
    requires forall i, j :: 0 <= i < j < |a| ==> a[i] != a[j]
    ensures multiset(a)[c] == if c in a then 1 else 0
    decreases |a|
  {
    if a != [] {
      var n := |a| - 1;
      CountDistinct(a[..n], c);
      assert a == a[..n] + [a[n]];
    }
  }

  // ----- Runs that end badly -----

  lemma {:induction false} ForkInto(s: State, p: nat, i: nat)
    requires p in s.procs && FreeSlot(s.procs[p].children) == Some(i)
    ensures Fork(s, p) ==
            Ok(s.(procs := s.procs[p := s.procs[p].(children := s.procs[p].children[i := Some(s.nextPid)])]
                                  [s.nextPid := Proc(p, false, 0, NoChildren, None, Running)],
                  nextPid := s.nextPid + 1))
  {
  }

  const NoChildren: seq<Option<nat>> := seq(MAX_CHILDREN, j => None)

  /** One process forks, the child forks, the child exits and is reaped: the grandchild's exit faults. */
  lemma {:induction false} OrphanExitFaults() returns (states: seq<State>)
    ensures IsRun(states, [ForkStep(1), ForkStep(2), ExitStep(2, 0), WaitStep(1, true, true)])
    ensures states[0] == Boot(1) && Enabled(states[4], ExitStep(3, 0)) && Exec(states[4], ExitStep(3, 0)) == Fault
  {
    var alone := Proc(0, false, 0, NoChildren, None, Running);
    var first := alone.(children := NoChildren[0 := Some(2)]);
    var second, third := Proc(1, false, 0, NoChildren, None, Running), Proc(2, false, 0, NoChildren, None, Running);
    var parent := second.(children := NoChildren[0 := Some(3)]);
    var dead := parent.(zombie := true, thread := Exited);
    var s0 := Boot(1);
    var s1 := State(map[1 := first, 2 := second], 3, map[], 0, []);
    var s2 := State(map[1 := first, 2 := parent, 3 := third], 4, map[], 0, []);
    var s3 := s2.(procs := s2.procs[2 := dead]);
    var s4 := State(map[1 := alone, 3 := third], 4, map[], 0, [2]);
    assert s0.procs[1] == alone;
    ForkInto(s0, 1, 0);
    assert Fork(s0, 1) == Ok(s1);
    ForkInto(s1, 2, 0);
    assert Fork(s1, 2) == Ok(s2);
    assert Exit(s2, 2, 0) == Ok(s3);
    assert DeadAt(s3, first.children, 0) && DeadChild(s3, first.children) == Some(0);
    assert first.children[0 := None] == NoChildren;
    assert s3.procs[1 := alone] - {2} == s4.procs;
    assert Wait(s3, 1, true, true) == Ok(s4);
    states := [s0, s1, s2, s3, s4];
  }

  /** A parent that cannot get its list item panics although its child is alive. */
  lemma {:induction false} FailedWaitPanics() returns (states: seq<State>)
    ensures IsRun(states, [ForkStep(1)]) && states[0] == Boot(1)
    ensures Enabled(states[1], WaitStep(1, true, false)) && Exec(states[1], WaitStep(1, true, false)) == ChildMissing
  {
    var s0 := Boot(1);
    ForkInto(s0, 1, 0);
    var s1 := Fork(s0, 1).state;
    states := [s0, s1];
    var children := s1.procs[1].children;
    assert children[0].Some? && !s1.procs[2].zombie;
    assert forall i :: 0 <= i < |children| ==> !DeadAt(s1, children, i);
  }
}
