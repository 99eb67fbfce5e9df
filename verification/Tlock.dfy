/**
  The thread lock: a lock word, a short-held second lock word, and a bounded
  queue of conditions to sleep on.  Every atomic action of tlock_acquire and
  tlock_release is one step, and threads interleave freely.

  In tlock_acquire the loop tests a variable that the assignment inside it
  shadows, so as written it never ends; `fixed` chooses between the code as
  written and the loop that ends once the thread is queued.
  */
module Tlock {
  /** Where a thread stands. `c` is the condition it made for this acquire. */
  datatype Pc =
    | Idle
    | Try
    | Create
    | Enter(c: nat)
    | Push(c: nat)
    | LeaveQueue(c: nat, queued: bool)
    | Yield(c: nat, queued: bool)
    | GoToSleep(c: nat)
    | Asleep(c: nat)
    | Signalled(c: nat)
    | Holding
    | ReleaseEnter
    | ReleaseCheck
    | LeaveEmpty
    | FreeLock
    | LeaveHandOff(next: nat)
    | Signal(next: nat)

  /** `lock` and `threadLock` are the two lock words; `queue` holds conditions, oldest first. */
  datatype State = State(pcs: map<nat, Pc>, lock: bool, threadLock: bool, queue: seq<nat>, nextCond: nat, capacity: nat,
                         fixed: bool)

  predicate Enabled(s: State, t: nat) {
    t in s.pcs &&
    match s.pcs[t]
    case Enter(_) => !s.threadLock
    case ReleaseEnter => !s.threadLock
    case Asleep(_) => false
    case _ => true
  }

  function Go(s: State, t: nat, pc: Pc): State {
    s.(pcs := s.pcs[t := pc])
  }

  /** cond_signal wakes whoever sleeps on the condition now; it leaves no trace for later sleepers. */
  function WakeAll(pcs: map<nat, Pc>, c: nat): map<nat, Pc> {
    map t | t in pcs :: if pcs[t] == Asleep(c) then Signalled(c) else pcs[t]
  }

  function Exec(s: State, t: nat): State
    requires Enabled(s, t)
  {
    match s.pcs[t]
    case Idle => Go(s, t, Try)
    case Try => if s.lock then Go(s, t, Create) else Go(s, t, Holding).(lock := true)
    case Create => Go(s, t, Enter(s.nextCond)).(nextCond := s.nextCond + 1)
    case Enter(c) => Go(s, t, Push(c)).(threadLock := true)
    case Push(c) =>
      if |s.queue| < s.capacity then Go(s, t, LeaveQueue(c, true)).(queue := s.queue + [c])
      else Go(s, t, LeaveQueue(c, false))
    case LeaveQueue(c, queued) => Go(s, t, Yield(c, queued)).(threadLock := false)
    case Yield(c, queued) => if s.fixed && queued then Go(s, t, GoToSleep(c)) else Go(s, t, Enter(c))
    case GoToSleep(c) => Go(s, t, Asleep(c))
    case Signalled(c) => Go(s, t, Holding)
    case Holding => Go(s, t, ReleaseEnter)
    case ReleaseEnter => Go(s, t, ReleaseCheck).(threadLock := true)
    case ReleaseCheck =>
      if s.queue == [] then Go(s, t, LeaveEmpty) else Go(s, t, LeaveHandOff(s.queue[0])).(queue := s.queue[1..])
    case LeaveEmpty => Go(s, t, FreeLock).(threadLock := false)
    case FreeLock => Go(s, t, Idle).(lock := false)
    case LeaveHandOff(next) => Go(s, t, Signal(next)).(threadLock := false)
    case Signal(next) => s.(pcs := WakeAll(s.pcs, next)[t := Idle])
    case Asleep(_) => s
  }

  // ----- Who is inside -----

  /** From the return of tlock_acquire to the end of tlock_release. */
  predicate Inside(pc: Pc) {
    pc.Holding? || pc.ReleaseEnter? || pc.ReleaseCheck? || pc.LeaveEmpty? || pc.FreeLock? ||
    pc.LeaveHandOff? || pc.Signal?
  }

  /** Inside, or signalled and about to be: the thread the lock has been given to. */
  predicate HasLock(pc: Pc) {
    Inside(pc) || pc.Signalled?
  }

  /** Between taking and giving back the second lock word. */
  predicate InQueueSection(pc: Pc) {
    pc.Push? || pc.LeaveQueue? || pc.ReleaseCheck? || pc.LeaveEmpty? || pc.LeaveHandOff?
  }

  /** The condition of an acquire in progress. */
  predicate Owns(pc: Pc, c: nat) {
    match pc
    case Enter(d) => c == d
    case Push(d) => c == d
    case LeaveQueue(d, _) => c == d
    case Yield(d, _) => c == d
    case GoToSleep(d) => c == d
    case Asleep(d) => c == d
    case Signalled(d) => c == d
    case _ => false
  }

  /** One thread at most has the lock, and the lock word says so. */
  ghost predicate LockOk(s: State) {
    && (forall t, u :: t in s.pcs && u in s.pcs && HasLock(s.pcs[t]) && HasLock(s.pcs[u]) ==> t == u)
    && (forall t :: t in s.pcs && HasLock(s.pcs[t]) ==> s.lock)
  }

  /** The same for the second lock word. */
  ghost predicate QueueLockOk(s: State) {
    && (forall t, u :: t in s.pcs && u in s.pcs && InQueueSection(s.pcs[t]) && InQueueSection(s.pcs[u]) ==> t == u)
    && (forall t :: t in s.pcs && InQueueSection(s.pcs[t]) ==> s.threadLock)
  }

  /** Conditions in use are old, and each is one thread's. */
  ghost predicate CondsOk(s: State) {
    && (forall t, c: nat :: t in s.pcs && Owns(s.pcs[t], c) ==> c < s.nextCond)
    && (forall t, u, c: nat :: t in s.pcs && u in s.pcs && Owns(s.pcs[t], c) && Owns(s.pcs[u], c) ==> t == u)
  }

  ghost predicate Inv(s: State) {
    LockOk(s) && QueueLockOk(s) && CondsOk(s)
  }

  /** Any number of threads, none of them in the lock. */
  predicate Start(s: State) {
    !s.lock && !s.threadLock && s.queue == [] && forall t :: t in s.pcs ==> s.pcs[t].Idle?
  }

  lemma {:induction false} StepKeeps(s: State, t: nat)
    requires Inv(s) && Enabled(s, t)
    ensures Inv(Exec(s, t))
  {
    hide LockOk, QueueLockOk, CondsOk, Exec;
    if s.pcs[t].Signal? {
      SignalLock(s, t);
      SignalOthers(s, t);
    } else {
      OneThreadStep(s, t);
      LockStep(s, t);
      QueueSectionStep(s, t);
      CondStep(s, t);
      KeepLock(s, t, Exec(s, t));
      KeepQueueLock(s, t, Exec(s, t));
      KeepConds(s, t, Exec(s, t));
    }
  }

  /** Every step but a signal changes one thread only. */
  lemma {:induction false} OneThreadStep(s: State, t: nat)
    requires Enabled(s, t) && !s.pcs[t].Signal?
    ensures var s' := Exec(s, t);
            s'.pcs.Keys == s.pcs.Keys && forall u :: u in s.pcs && u != t ==> s'.pcs[u] == s.pcs[u]
  {
  }

  /** What such a step may do to the lock word. */
  lemma {:induction false} LockStep(s: State, t: nat)
    requires Enabled(s, t) && !s.pcs[t].Signal?
    ensures var s', p, p' := Exec(s, t), s.pcs[t], Exec(s, t).pcs[t];
            && (HasLock(p') ==> HasLock(p) || !s.lock)
            && (HasLock(p') && !HasLock(p) ==> s'.lock)
            && (s'.lock == s.lock || (HasLock(p) && !HasLock(p')) || (!s.lock && HasLock(p')))
            && (s'.lock && (HasLock(p) || !s.lock) ==> HasLock(p'))
  {
  }

  lemma {:induction false} QueueSectionStep(s: State, t: nat)
    requires Enabled(s, t) && !s.pcs[t].Signal?
    ensures var s', p, p' := Exec(s, t), s.pcs[t], Exec(s, t).pcs[t];
            && (InQueueSection(p') ==> InQueueSection(p) || (!s.threadLock && s'.threadLock))
            && (s'.threadLock == s.threadLock || (InQueueSection(p) && !InQueueSection(p')) || s'.threadLock)
  {
  }

  lemma {:induction false} CondStep(s: State, t: nat)
    requires Enabled(s, t) && !s.pcs[t].Signal?
    ensures var s', p, p' := Exec(s, t), s.pcs[t], Exec(s, t).pcs[t];
            && s.nextCond <= s'.nextCond
            && (forall c: nat :: Owns(p', c) ==> Owns(p, c) || (c == s.nextCond && c < s'.nextCond))
  {
  }

  lemma {:induction false} KeepLock(s: State, t: nat, s': State)
    requires LockOk(s) && t in s.pcs && s'.pcs.Keys == s.pcs.Keys
    requires forall u :: u in s.pcs && u != t ==> s'.pcs[u] == s.pcs[u]
    requires HasLock(s'.pcs[t]) ==> HasLock(s.pcs[t]) || !s.lock
    requires HasLock(s'.pcs[t]) && !HasLock(s.pcs[t]) ==> s'.lock
    requires s'.lock == s.lock || (HasLock(s.pcs[t]) && !HasLock(s'.pcs[t])) || (!s.lock && HasLock(s'.pcs[t]))
    ensures LockOk(s')
  {
    hide HasLock;
  }

  lemma {:induction false} KeepQueueLock(s: State, t: nat, s': State)
    requires QueueLockOk(s) && t in s.pcs && s'.pcs.Keys == s.pcs.Keys
    requires forall u :: u in s.pcs && u != t ==> s'.pcs[u] == s.pcs[u]
    requires InQueueSection(s'.pcs[t]) ==> InQueueSection(s.pcs[t]) || (!s.threadLock && s'.threadLock)
    requires s'.threadLock == s.threadLock || (InQueueSection(s.pcs[t]) && !InQueueSection(s'.pcs[t])) || s'.threadLock
    ensures QueueLockOk(s')
  {
    hide InQueueSection;
  }

  lemma {:induction false} KeepConds(s: State, t: nat, s': State)
    requires CondsOk(s) && t in s.pcs && s'.pcs.Keys == s.pcs.Keys && s.nextCond <= s'.nextCond
    requires forall u :: u in s.pcs && u != t ==> s'.pcs[u] == s.pcs[u]
    requires forall c: nat :: Owns(s'.pcs[t], c) ==> Owns(s.pcs[t], c) || (c == s.nextCond && c < s'.nextCond)
    ensures CondsOk(s')
  {
    hide Owns;
  }

  /** The hand-off: the releaser leaves as the sleeper, if there is one, becomes the one with the lock. */
  lemma {:induction false} SignalLock(s: State, t: nat)
    requires Inv(s) && Enabled(s, t) && s.pcs[t].Signal?
    ensures LockOk(Exec(s, t))
  {
    var s', c := Exec(s, t), s.pcs[t].next;
    assert HasLock(s.pcs[t]);
    forall u | u in s'.pcs && HasLock(s'.pcs[u])
      ensures u != t && Owns(s.pcs[u], c) && s.pcs[u] == Asleep(c)
    {
      assert u != t;
    }
  }

  /** A signal puts nobody into the queue section and gives nobody a condition. */
  lemma {:induction false} SignalEach(s: State, t: nat, u: nat)
    requires Enabled(s, t) && s.pcs[t].Signal? && u in s.pcs
    ensures var s' := Exec(s, t);
            && s'.pcs.Keys == s.pcs.Keys && s'.threadLock == s.threadLock && s'.nextCond == s.nextCond
            && (InQueueSection(s'.pcs[u]) ==> InQueueSection(s.pcs[u]))
            && forall c: nat :: Owns(s'.pcs[u], c) ==> Owns(s.pcs[u], c)
  {
    assert Exec(s, t).pcs[u] in {s.pcs[u], Idle, Signalled(s.pcs[t].next)};
  }

  lemma {:induction false} SignalOthers(s: State, t: nat)
    requires Inv(s) && Enabled(s, t) && s.pcs[t].Signal?
    ensures QueueLockOk(Exec(s, t)) && CondsOk(Exec(s, t))
  {
    hide Exec, InQueueSection, Owns, LockOk, Enabled;
    SignalKeys(s, t);
    var s' := Exec(s, t);
    forall u | u in s'.pcs
      ensures InQueueSection(s'.pcs[u]) ==> InQueueSection(s.pcs[u])
      ensures forall c: nat :: Owns(s'.pcs[u], c) ==> Owns(s.pcs[u], c)
    {
      SignalEach(s, t, u);
    }
    SignalEach(s, t, t);
  }

  lemma {:induction false} SignalKeys(s: State, t: nat)
    requires Enabled(s, t) && s.pcs[t].Signal?
    ensures t in s.pcs && Exec(s, t).pcs.Keys == s.pcs.Keys
  {
  }

  // ----- Runs -----

  ghost predicate IsRun(states: seq<State>, steps: seq<nat>) {
    |states| == |steps| + 1 &&
    forall k :: 0 <= k < |steps| ==> Enabled(states[k], steps[k]) && states[k + 1] == Exec(states[k], steps[k])
  }

  lemma {:induction false} RunKeeps(states: seq<State>, steps: seq<nat>, k: nat)
    requires IsRun(states, steps) && Inv(states[0]) && k < |states|
    ensures Inv(states[k])
    decreases k
  {
    if k > 0 {
      RunKeeps(states, steps, k - 1);
      var j := k - 1;
      assert Enabled(states[j], steps[j]) && states[j + 1] == Exec(states[j], steps[j]);
      StepKeeps(states[j], steps[j]);
    }
  }

  /** In every interleaving at most one thread is between the return of acquire and the end of release. */
  lemma {:induction false} MutualExclusion(states: seq<State>, steps: seq<nat>, k: nat, t: nat, u: nat)
    requires IsRun(states, steps) && Start(states[0]) && k < |states|
    requires t in states[k].pcs && u in states[k].pcs && Inside(states[k].pcs[t]) && Inside(states[k].pcs[u])
    ensures t == u
  {
    RunKeeps(states, steps, k);
  }

  /** The second lock word is set only while some thread is between taking it and giving it back. */
  ghost predicate QueueLockHeld(s: State) {
    s.threadLock ==> exists t :: t in s.pcs && InQueueSection(s.pcs[t])
  }

  /** A step takes the second lock word as it enters the section, and gives it back as it leaves. */
  lemma {:induction false} QueueLockStep(s: State, t: nat)
    requires Enabled(s, t)
    ensures var s' := Exec(s, t);
            && t in s'.pcs && (InQueueSection(s'.pcs[t]) ==> s'.threadLock || InQueueSection(s.pcs[t]))
            && (InQueueSection(s.pcs[t]) && !InQueueSection(s'.pcs[t]) ==> !s'.threadLock)
            && (s'.threadLock ==> s.threadLock || InQueueSection(s'.pcs[t]))
            && forall u :: u in s.pcs && u != t ==>
                 u in s'.pcs && (InQueueSection(s'.pcs[u]) <==> InQueueSection(s.pcs[u]))
  {
    if !s.pcs[t].Signal? { OneThreadStep(s, t); }
  }

  /** In every interleaving the second lock is given back: whenever it is held, some thread is in its section. */
  lemma {:induction false} QueueLockIsGivenBack(states: seq<State>, steps: seq<nat>, k: nat)
    requires IsRun(states, steps) && Start(states[0]) && k < |states|
    ensures QueueLockHeld(states[k])
    decreases k
  {
    if k > 0 {
      QueueLockIsGivenBack(states, steps, k - 1);
      var j := k - 1;
      var s, s', t := states[j], states[k], steps[j];
      assert Enabled(s, t) && states[j + 1] == Exec(s, t);
      hide Exec, Enabled, InQueueSection;
      QueueLockStep(s, t);
      if s'.threadLock && !InQueueSection(s'.pcs[t]) {
        var u :| u in s.pcs && InQueueSection(s.pcs[u]);
        assert u != t && InQueueSection(s'.pcs[u]);
      }
    }
  }

  // ----- What the hand-off can lose -----

  predicate SomeoneHasLock(s: State) {
    exists t :: t in s.pcs && HasLock(s.pcs[t])
  }

  /** The lock is taken and nobody has it. */
  predicate Abandoned(s: State) {
    s.lock && !SomeoneHasLock(s)
  }

  /** A release abandons the lock exactly when the thread it hands over to is not yet asleep. */
  lemma {:induction false} HandOffIff(s: State, t: nat)
    requires Inv(s) && Enabled(s, t) && s.pcs[t].Signal?
    ensures Abandoned(Exec(s, t)) <==> !(exists u :: u in s.pcs && s.pcs[u] == Asleep(s.pcs[t].next))
  {
    var s', c := Exec(s, t), s.pcs[t].next;
    if u :| u in s.pcs && s.pcs[u] == Asleep(c) {
      assert u != t && HasLock(s'.pcs[u]);
    } else {
      forall u | u in s'.pcs
        ensures !HasLock(s'.pcs[u])
      {
        assert u != t ==> s'.pcs[u] == s.pcs[u];
      }
    }
  }

  /** No other step abandons it. */
  lemma {:induction false} OnlySignalAbandons(s: State, t: nat)
    requires Inv(s) && Enabled(s, t) && !s.pcs[t].Signal? && !Abandoned(s)
    ensures !Abandoned(Exec(s, t))
  {
    OneThreadStep(s, t);
    LockStep(s, t);
    hide Exec, Enabled, Inv, HasLock;
    var s' := Exec(s, t);
    if s.lock {
      var u :| u in s.pcs && HasLock(s.pcs[u]);
      assert s'.lock ==> HasLock(s'.pcs[u]) || HasLock(s'.pcs[t]);
    }
  }

  // ----- Nobody is forgotten -----

  /** The thread has put its condition in the queue, and has not been woken. */
  predicate Waits(pc: Pc, c: nat) {
    pc == LeaveQueue(c, true) || pc == Yield(c, true) || pc == GoToSleep(c) || pc == Asleep(c)
  }

  /** A releaser has taken the condition out of the queue and will signal it. */
  predicate Hands(pc: Pc, c: nat) {
    pc == LeaveHandOff(c) || pc == Signal(c)
  }

  ghost predicate Remembered(s: State, c: nat) {
    c in s.queue || exists u :: u in s.pcs && Hands(s.pcs[u], c)
  }

  /** Unless the lock is abandoned, every thread that waits is in the queue or about to be signalled. */
  ghost predicate NoneForgotten(s: State) {
    Abandoned(s) || forall t, c: nat :: t in s.pcs && Waits(s.pcs[t], c) ==> Remembered(s, c)
  }

  /** What one step does to the queue and to the stepping thread's own wait. */
  lemma {:induction false} WaitStep(s: State, t: nat, c: nat)
    requires Enabled(s, t) && !s.pcs[t].Signal?
    ensures var s' := Exec(s, t);
            && t in s'.pcs && (c in s.queue ==> c in s'.queue || Hands(s'.pcs[t], c))
            && (Hands(s.pcs[t], c) ==> Hands(s'.pcs[t], c))
            && (Waits(s'.pcs[t], c) ==> Waits(s.pcs[t], c) || c in s'.queue)
  {
  }

  lemma {:induction false} RememberedStays(s: State, t: nat, c: nat)
    requires Enabled(s, t) && !s.pcs[t].Signal? && Remembered(s, c)
    ensures Remembered(Exec(s, t), c)
  {
    hide Exec, Enabled, Hands;
    WaitStep(s, t, c);
    OneThreadStep(s, t);
    var s' := Exec(s, t);
    if c !in s.queue {
      var u :| u in s.pcs && Hands(s.pcs[u], c);
      assert Hands(s'.pcs[u], c);
    }
  }

  /** The signal wakes the one who waits for it, or the lock is abandoned; others are still remembered. */
  lemma {:induction false} SignalForgetsNone(s: State, t: nat, u: nat, c: nat)
    requires Inv(s) && Enabled(s, t) && s.pcs[t].Signal? && !Abandoned(Exec(s, t))
    requires u in s.pcs && Waits(Exec(s, t).pcs[u], c) && (Waits(s.pcs[u], c) ==> Remembered(s, c))
    ensures Remembered(Exec(s, t), c)
  {
    var s', d := Exec(s, t), s.pcs[t].next;
    HandOffIff(s, t);
    var v :| v in s.pcs && s.pcs[v] == Asleep(d);
    assert Owns(s.pcs[v], d) && Owns(s.pcs[u], c) && u != v;
    assert c != d && HasLock(s.pcs[t]);
    assert c in s.queue;
  }

  lemma {:induction false} StepForgetsNone(s: State, t: nat)
    requires Inv(s) && Enabled(s, t) && NoneForgotten(s)
    ensures NoneForgotten(Exec(s, t))
  {
    hide Exec, Enabled, Waits, Inv, Remembered, Abandoned;
    var s' := Exec(s, t);
    if Abandoned(s) {
      AbandonedStays(s, t);
    } else if !Abandoned(s') {
      SameThreads(s, t);
      forall u, c: nat | u in s'.pcs && Waits(s'.pcs[u], c)
        ensures Remembered(s', c)
      {
        if s.pcs[t].Signal? {
          SignalForgetsNone(s, t, u, c);
        } else {
          OneThreadStep(s, t);
          WaitStep(s, t, c);
          if c in s'.queue { QueuedIsRemembered(s', c); } else { RememberedStays(s, t, c); }
        }
      }
    }
  }

  lemma {:induction false} QueuedIsRemembered(s: State, c: nat)
    requires c in s.queue
    ensures Remembered(s, c)
  {
  }

  lemma {:induction false} SameThreads(s: State, t: nat)
    requires Enabled(s, t)
    ensures Exec(s, t).pcs.Keys == s.pcs.Keys && t in s.pcs
  {
  }

  /**
    In every interleaving, unless the lock has been abandoned, every thread that sleeps or is about to
    has its condition in the queue, or a releaser on its way to signal it.
    */
  lemma {:induction false} NobodyIsForgotten(states: seq<State>, steps: seq<nat>, k: nat)
    requires IsRun(states, steps) && Start(states[0]) && k < |states|
    ensures NoneForgotten(states[k])
    decreases k
  {
    if k > 0 {
      NobodyIsForgotten(states, steps, k - 1);
      var j := k - 1;
      assert Enabled(states[j], steps[j]) && states[j + 1] == Exec(states[j], steps[j]);
      hide Exec, Enabled, NoneForgotten;
      RunKeeps(states, steps, j);
      StepForgetsNone(states[j], steps[j]);
    }
  }

  /** Once abandoned, the lock is never taken again: no thread is ever inside from then on. */
  lemma {:induction false} AbandonedForever(states: seq<State>, steps: seq<nat>, j: nat, k: nat)
    requires IsRun(states, steps) && j <= k < |states| && Abandoned(states[j])
    ensures Abandoned(states[k])
    decreases k
  {
    hide Exec, Enabled, Abandoned;
    if j < k {
      AbandonedForever(states, steps, j, k - 1);
      var i := k - 1;
      assert Enabled(states[i], steps[i]) && states[i + 1] == Exec(states[i], steps[i]);
      AbandonedStays(states[i], steps[i]);
    }
  }

  lemma {:induction false} AbandonedStays(s: State, t: nat)
    requires Enabled(s, t) && Abandoned(s)
    ensures Abandoned(Exec(s, t))
  {
    var s' := Exec(s, t);
    assert !HasLock(s.pcs[t]);
    OneThreadStep(s, t);
    LockStep(s, t);
    forall u | u in s'.pcs
      ensures !HasLock(s'.pcs[u])
    {
      assert !HasLock(s.pcs[u]);
    }
  }

  /** In the code as written a thread that found the lock taken stays in the queueing loop for good. */
  predicate Looping(pc: Pc) {
    pc.Create? || pc.Enter? || pc.Push? || pc.LeaveQueue? || pc.Yield?
  }

  lemma {:induction false} AsWrittenNeverReturns(states: seq<State>, steps: seq<nat>, t: nat, j: nat, k: nat)
    requires IsRun(states, steps) && j <= k < |states| && !states[0].fixed
    requires t in states[j].pcs && Looping(states[j].pcs[t])
    ensures t in states[k].pcs && Looping(states[k].pcs[t]) && !states[k].fixed
    decreases k
  {
    hide Exec, Enabled, Looping;
    if j < k {
      AsWrittenNeverReturns(states, steps, t, j, k - 1);
      var i := k - 1;
      assert Enabled(states[i], steps[i]) && states[i + 1] == Exec(states[i], steps[i]);
      LoopingStays(states[i], t, steps[i]);
    } else {
      FixedStays(states, steps, k);
    }
  }

  /** Neither the thread's own steps nor those of others take it out of the loop. */
  lemma {:induction false} LoopingStays(s: State, t: nat, u: nat)
    requires Enabled(s, u) && t in s.pcs && Looping(s.pcs[t]) && !s.fixed
    ensures var s' := Exec(s, u); t in s'.pcs && Looping(s'.pcs[t]) && !s'.fixed
  {
    if u != t && !s.pcs[u].Signal? {
      FixedStep(s, u);
      hide Exec;
      OneThreadStep(s, u);
    }
  }

  lemma {:induction false} FixedStep(s: State, u: nat)
    requires Enabled(s, u)
    ensures Exec(s, u).fixed == s.fixed
  {
  }

  lemma {:induction false} FixedStays(states: seq<State>, steps: seq<nat>, k: nat)
    requires IsRun(states, steps) && k < |states|
    ensures states[k].fixed == states[0].fixed
    decreases k
  {
    hide Exec, Enabled;
    if k > 0 {
      FixedStays(states, steps, k - 1);
      var i := k - 1;
      assert Enabled(states[i], steps[i]) && states[i + 1] == Exec(states[i], steps[i]);
      FixedStep(states[i], steps[i]);
    }
  }

  // ----- A run that loses the hand-off -----

  /** `n` steps of one thread, as far as it can go. */
  function Steps(s: State, t: nat, n: nat): State
    decreases n
  {
    if n == 0 || !Enabled(s, t) then s else Steps(Exec(s, t), t, n - 1)
  }

  /** One step of `t` to a known program counter, with the other fields as given. */
  lemma {:induction false} StepTo(s: State, t: nat, n: nat, s': State)
    requires Enabled(s, t) && Exec(s, t) == s'
    ensures Steps(s, t, n + 1) == Steps(s', t, n)
  {
  }

  lemma {:induction false} StepsNone(s: State, t: nat)
    ensures Steps(s, t, 0) == s
  {
  }

  lemma {:induction false} TryFails(s: State, t: nat)
    requires s.lock && t in s.pcs && s.pcs[t] == Try
    ensures Enabled(s, t) && Exec(s, t) == Go(s, t, Create)
  {
  }

  lemma {:induction false} Creates(s: State, t: nat)
    requires t in s.pcs && s.pcs[t] == Create
    ensures Enabled(s, t) && Exec(s, t) == Go(s, t, Enter(s.nextCond)).(nextCond := s.nextCond + 1)
  {
  }

  lemma {:induction false} Enters(s: State, t: nat, c: nat)
    requires !s.threadLock && t in s.pcs && s.pcs[t] == Enter(c)
    ensures Enabled(s, t) && Exec(s, t) == Go(s, t, Push(c)).(threadLock := true)
  {
  }

  lemma {:induction false} Pushes(s: State, t: nat, c: nat)
    requires |s.queue| < s.capacity && t in s.pcs && s.pcs[t] == Push(c)
    ensures Enabled(s, t) && Exec(s, t) == Go(s, t, LeaveQueue(c, true)).(queue := s.queue + [c])
  {
  }

  lemma {:induction false} LeavesQueue(s: State, t: nat, c: nat)
    requires t in s.pcs && s.pcs[t] == LeaveQueue(c, true)
    ensures Enabled(s, t) && Exec(s, t) == Go(s, t, Yield(c, true)).(threadLock := false)
  {
  }

  lemma {:induction false} StartsRelease(s: State, t: nat)
    requires !s.threadLock && t in s.pcs && s.pcs[t] == Holding
    ensures Steps(s, t, 4) == Steps(Go(s, t, ReleaseEnter), t, 3)
  {
    StepTo(s, t, 3, Go(s, t, ReleaseEnter));
  }

  lemma {:induction false} ReadsQueue(s: State, t: nat)
    requires !s.threadLock && s.queue != [] && t in s.pcs && s.pcs[t] == ReleaseEnter
    ensures var s1 := Go(s, t, ReleaseCheck).(threadLock := true);
            Steps(s, t, 3) == Steps(Go(s1, t, LeaveHandOff(s.queue[0])).(queue := s.queue[1..]), t, 1)
  {
    var s1 := Go(s, t, ReleaseCheck).(threadLock := true);
    StepTo(s, t, 2, s1);
    StepTo(s1, t, 1, Go(s1, t, LeaveHandOff(s.queue[0])).(queue := s.queue[1..]));
  }

  lemma {:induction false} LeavesHandOff(s: State, t: nat, c: nat)
    requires t in s.pcs && s.pcs[t] == LeaveHandOff(c)
    ensures Steps(s, t, 1) == Go(s, t, Signal(c)).(threadLock := false)
  {
    StepTo(s, t, 0, Go(s, t, Signal(c)).(threadLock := false));
  }

  /** A thread that finds the lock taken queues its condition, and has not gone to sleep yet. */
  lemma {:induction false} QueuesUp(s: State, t: nat)
    requires s.lock && !s.threadLock && |s.queue| < s.capacity && t in s.pcs && s.pcs[t] == Try
    ensures Steps(s, t, 5) ==
            s.(pcs := s.pcs[t := Yield(s.nextCond, true)], queue := s.queue + [s.nextCond], nextCond := s.nextCond + 1)
  {
    hide Exec, Enabled, Steps;
    var c := s.nextCond;
    var s1 := Go(s, t, Create);
    var s2 := Go(s1, t, Enter(c)).(nextCond := c + 1);
    var s3 := Go(s2, t, Push(c)).(threadLock := true);
    var s4 := Go(s3, t, LeaveQueue(c, true)).(queue := s.queue + [c]);
    var s5 := Go(s4, t, Yield(c, true)).(threadLock := false);
    TryFails(s, t); StepTo(s, t, 4, s1);
    Creates(s1, t); StepTo(s1, t, 3, s2);
    Enters(s2, t, c); StepTo(s2, t, 2, s3);
    Pushes(s3, t, c); StepTo(s3, t, 1, s4);
    LeavesQueue(s4, t, c); StepTo(s4, t, 0, s5);
    StepsNone(s5, t);
    assert s5.pcs == s.pcs[t := Yield(c, true)];
  }

  /** A whole release by `t` with somebody in the queue, up to the signal. */
  lemma {:induction false} Releases(s: State, t: nat)
    requires !s.threadLock && s.queue != [] && t in s.pcs && s.pcs[t] == Holding
    ensures Steps(s, t, 4) == s.(pcs := s.pcs[t := Signal(s.queue[0])], queue := s.queue[1..])
  {
    hide Exec, Enabled, Steps;
    var s1 := Go(s, t, ReleaseEnter);
    StartsRelease(s, t);
    ReadsQueue(s1, t);
    var s3 := Go(Go(s1, t, ReleaseCheck).(threadLock := true), t, LeaveHandOff(s.queue[0])).(queue := s.queue[1..]);
    LeavesHandOff(s3, t, s.queue[0]);
    assert Go(s3, t, Signal(s.queue[0])).pcs == s.pcs[t := Signal(s.queue[0])];
  }

  lemma {:induction false} Acquires(s: State, t: nat)
    requires t in s.pcs && s.pcs[t] == Idle && !s.lock
    ensures Steps(s, t, 2) == s.(pcs := s.pcs[t := Holding], lock := true)
  {
    hide Steps;
    var s1 := Go(s, t, Try);
    var s2 := s.(pcs := s.pcs[t := Holding], lock := true);
    assert Go(s1, t, Holding).(lock := true) == s2;
    StepTo(s, t, 1, s1);
    StepTo(s1, t, 0, s2);
    StepsNone(s2, t);
  }

  lemma {:induction false} FindsNobody(s: State, t: nat)
    requires !s.threadLock && s.queue == [] && t in s.pcs && s.pcs[t] == ReleaseEnter
    ensures Steps(s, t, 4) == Steps(Go(Go(s, t, ReleaseCheck).(threadLock := true), t, LeaveEmpty), t, 2)
  {
    hide Steps;
    var s1 := Go(s, t, ReleaseCheck).(threadLock := true);
    StepTo(s, t, 3, s1);
    StepTo(s1, t, 2, Go(s1, t, LeaveEmpty));
  }

  lemma {:induction false} FreesLock(s: State, t: nat)
    requires t in s.pcs && s.pcs[t] == LeaveEmpty
    ensures Steps(s, t, 2) == s.(pcs := s.pcs[t := Idle], lock := false, threadLock := false)
  {
    hide Steps;
    var s1 := Go(s, t, FreeLock).(threadLock := false);
    var s2 := s.(pcs := s.pcs[t := Idle], lock := false, threadLock := false);
    assert Go(s1, t, Idle).(lock := false) == s2;
    StepTo(s, t, 1, s1);
    StepTo(s1, t, 0, s2);
    StepsNone(s2, t);
  }

  /** Without anybody else, acquiring and releasing leaves the lock as it was. */
  lemma {:induction false} AcquireThenRelease(s: State, t: nat)
    requires t in s.pcs && s.pcs[t] == Idle && !s.lock && !s.threadLock && s.queue == []
    ensures Steps(s, t, 2) == s.(pcs := s.pcs[t := Holding], lock := true) && Steps(Steps(s, t, 2), t, 5) == s
  {
    hide Steps, Exec;
    Acquires(s, t);
    var s2 := s.(pcs := s.pcs[t := Holding], lock := true);
    var s3 := Go(s2, t, ReleaseEnter);
    HoldingStarts(s2, t);
    StepTo(s2, t, 4, s3);
    FindsNobody(s3, t);
    var s5 := Go(Go(s3, t, ReleaseCheck).(threadLock := true), t, LeaveEmpty);
    FreesLock(s5, t);
    assert s5.pcs[t := Idle] == s.pcs;
  }

  lemma {:induction false} HoldingStarts(s: State, t: nat)
    requires t in s.pcs && s.pcs[t] == Holding
    ensures Enabled(s, t) && Exec(s, t) == Go(s, t, ReleaseEnter)
  {
  }

  /** The signal wakes the one thread that sleeps on the condition. */
  lemma {:induction false} SignalWakes(s: State, t: nat, c: nat, u: nat)
    requires CondsOk(s) && t in s.pcs && s.pcs[t] == Signal(c) && u in s.pcs && s.pcs[u] == Asleep(c)
    ensures Enabled(s, t) && Exec(s, t) == s.(pcs := s.pcs[t := Idle][u := Signalled(c)])
  {
    assert Owns(s.pcs[u], c);
    forall v | v in s.pcs && v != u
      ensures s.pcs[v] != Asleep(c)
    {
      assert !Owns(s.pcs[v], c);
    }
    assert Exec(s, t).pcs == s.pcs[t := Idle][u := Signalled(c)];
  }

  lemma {:induction false} WokenHolds(s: State, u: nat, c: nat)
    requires u in s.pcs && s.pcs[u] == Signalled(c)
    ensures Enabled(s, u) && Exec(s, u) == Go(s, u, Holding)
  {
  }

  /** A release with its oldest waiter asleep: that waiter goes on with the lock, and nobody else changes. */
  lemma {:induction false} HandsOver(s: State, t: nat, u: nat)
    requires CondsOk(s) && !s.threadLock && s.queue != [] && t in s.pcs && s.pcs[t] == Holding
    requires u in s.pcs && s.pcs[u] == Asleep(s.queue[0])
    ensures Steps(Steps(Steps(s, t, 4), t, 1), u, 1) ==
            s.(pcs := s.pcs[t := Idle][u := Holding], queue := s.queue[1..])
  {
    hide Steps, Exec, Enabled;
    var c := s.queue[0];
    Releases(s, t);
    var s1 := s.(pcs := s.pcs[t := Signal(c)], queue := s.queue[1..]);
    var s2 := s1.(pcs := s1.pcs[t := Idle][u := Signalled(c)]);
    SignalWakes(s1, t, c, u);
    StepTo(s1, t, 0, s2);
    StepsNone(s2, t);
    WokenHolds(s2, u, c);
    StepTo(s2, u, 0, Go(s2, u, Holding));
    StepsNone(Go(s2, u, Holding), u);
    assert s2.pcs[u := Holding] == s.pcs[t := Idle][u := Holding];
  }

  /**
    Even with the loop that ends: when `u` queues up behind `t`, and `t` releases before `u` has gone
    to sleep, the lock stays taken for good.
    */
  lemma {:induction false} HandOffCanBeLost(s: State, t: nat, u: nat)
    requires Inv(s) && t != u && t in s.pcs && u in s.pcs && s.pcs[t] == Holding && s.pcs[u] == Try
    requires !s.threadLock && s.queue == [] && s.capacity > 0
    ensures Abandoned(Steps(Steps(Steps(s, u, 5), t, 4), t, 1))
  {
    hide Steps;
    assert HasLock(s.pcs[t]) && s.lock;
    QueuesUp(s, u);
    var s1 := Steps(s, u, 5);
    Releases(s1, t);
    var s2 := Steps(s1, t, 4);
    assert s2.pcs[t] == Signal(s.nextCond) && s2.pcs[u] == Yield(s.nextCond, true);
    forall v | v in s2.pcs && v != t
      ensures !HasLock(s2.pcs[v]) && s2.pcs[v] != Asleep(s.nextCond)
    {
      if v != u {
        assert s2.pcs[v] == s.pcs[v];
        assert Owns(s.pcs[v], s.nextCond) ==> s.nextCond < s.nextCond;
      }
    }
    StepTo(s2, t, 0, Exec(s2, t));
    StepsNone(Exec(s2, t), t);
  }

  /**
    From the start, with two threads and a place in the queue: one acquires, the other comes, and
    the lock is abandoned.
    */
  lemma {:induction false} HandOffLostFromStart(s: State, t: nat, u: nat)
    requires Start(s) && t != u && t in s.pcs && u in s.pcs && s.capacity > 0
    ensures Abandoned(Steps(Steps(Steps(Steps(Steps(s, t, 2), u, 1), u, 5), t, 4), t, 1))
  {
    hide Steps, Inv, Abandoned;
    var s1 := Go(s, t, Try);
    var s2 := Go(s1, t, Holding).(lock := true);
    var s3 := Go(s2, u, Try);
    StartIsInv(s);
    StepTo(s, t, 1, s1);
    StepTo(s1, t, 0, s2);
    StepsNone(s2, t);
    StepTo(s2, u, 0, s3);
    StepsNone(s3, u);
    StepKeeps(s, t);
    StepKeeps(s1, t);
    StepKeeps(s2, u);
    HandOffCanBeLost(s3, t, u);
  }

  lemma {:induction false} StartIsInv(s: State)
    requires Start(s)
    ensures Inv(s)
  {
  }
}
