/**
  The scheduler on its one processor: a ring of threads whose head is the idle
  thread, a queue of threads waiting to join it, and the walk that picks the
  next thread to run.
  */
module Sched {
  import opened Options

  /** The three conditions the walk looks at: the process may run, the thread may run, it waits for nothing. */
  datatype Info = Info(process: bool, thread: bool, waiting: bool)

  /** `at` is the position of the current thread; `locked` is the word of the queue's lock. */
  datatype State = State(ring: seq<nat>, at: nat, queue: seq<nat>, locked: bool, info: map<nat, Info>)

  predicate Eligible(s: State, t: nat) {
    t in s.info && s.info[t].process && s.info[t].thread && !s.info[t].waiting
  }

  // ----- The walk of sched_next_process -----

  /** The position `j` places after `at` in a ring of `n`. */
  function Ahead(at: nat, j: nat, n: nat): (k: nat)
    requires at < n && j <= n
    ensures k < n
  {
    if at + j < n then at + j else at + j - n
  }

  /** First eligible thread at distance `j` or more; the current thread is at distance `n`. */
  function Scan(s: State, j: nat): (r: Option<nat>)
    requires s.at < |s.ring| && j <= |s.ring| + 1
    ensures r.Some? ==> j <= r.value <= |s.ring| && Eligible(s, s.ring[Ahead(s.at, r.value, |s.ring|)])
    ensures r.Some? ==> forall i :: j <= i < r.value ==> !Eligible(s, s.ring[Ahead(s.at, i, |s.ring|)])
    ensures r.None? ==> forall i :: j <= i <= |s.ring| ==> !Eligible(s, s.ring[Ahead(s.at, i, |s.ring|)])
    decreases |s.ring| + 1 - j
  {
    if j == |s.ring| + 1 then None
    else if Eligible(s, s.ring[Ahead(s.at, j, |s.ring|)]) then Some(j)
    else Scan(s, j + 1)
  }

  /** How many places after the current thread position `k` comes, from 1 to the size of the ring. */
  function Distance(at: nat, k: nat, n: nat): (d: nat)
    requires at < n && k < n
    ensures 1 <= d <= n && Ahead(at, d, n) == k
  {
    if k > at then k - at else k + n - at
  }

  // ----- Steps -----

  /** A step ends in a state or in the "All tasks are blocked" panic. */
  datatype Outcome = Ok(state: State) | AllBlocked

  function Next(s: State): Outcome
    requires s.at < |s.ring|
  {
    match Scan(s, 1)
    case None => AllBlocked
    case Some(j) => Ok(s.(at := Ahead(s.at, j, |s.ring|)))
  }

  /** llist_pop takes the newest thread first. */
  function Reversed(q: seq<nat>): (r: seq<nat>)
    ensures |r| == |q|
  {
    seq(|q|, i requires 0 <= i < |q| => q[|q| - 1 - i])
  }

  /**
    sched_processes: lock_try returns zero when the lock was already held, so a call that finds the
    lock free takes it and leaves, and the call that finds it held drains the queue and frees it.
    */
  function Drain(s: State): State {
    if !s.locked then s.(locked := true)
    else s.(ring := s.ring + Reversed(s.queue), queue := [], locked := false)
  }

  datatype Step =
    | Pick
    | Drained
    | Enqueue(t: nat, i: Info)
    | SetInfo(t: nat, i: Info)
    | Replace(t: nat, i: Info)
    | Remove(t: nat)

  predicate InRing(s: State, t: nat) {
    t in s.ring
  }

  /** What the callers of each step see to: new threads are new, idle is left alone, only others are removed. */
  predicate Enabled(s: State, step: Step) {
    s.at < |s.ring| && s.ring[0] in s.info &&
    match step
    case Pick => true
    case Drained => true
    case Enqueue(t, _) => !s.locked && t !in s.ring && t !in s.queue
    case SetInfo(t, _) => t != s.ring[0]
    case Replace(t, _) => s.at > 0 && t !in s.ring && t !in s.queue
    case Remove(t) => t in s.ring && t != s.ring[0] && t != s.ring[s.at]
  }

  function Position(ring: seq<nat>, t: nat): (k: nat)
    requires t in ring
    ensures k < |ring| && ring[k] == t
    decreases |ring|
  {
    if ring[0] == t then 0 else 1 + Position(ring[1..], t)
  }

  function Cut(ring: seq<nat>, k: nat): (r: seq<nat>)
    requires k < |ring|
    ensures |r| == |ring| - 1
  {
    ring[..k] + ring[k + 1..]
  }

  function Exec(s: State, step: Step): Outcome
    requires Enabled(s, step)
  {
    match step
    case Pick => Next(s)
    case Drained => Ok(Drain(s))
    case Enqueue(t, i) => Ok(s.(queue := s.queue + [t], info := s.info[t := i]))
    case SetInfo(t, i) => Ok(s.(info := s.info[t := i]))
    case Replace(t, i) =>
      Ok(s.(ring := Cut(s.ring, s.at) + [t], at := |s.ring| - 1, info := s.info[t := i]))
    case Remove(t) =>
      var k := Position(s.ring, t);
      Ok(s.(ring := Cut(s.ring, k), at := if k < s.at then s.at - 1 else s.at))
  }

  /** sched_idle_init: the idle thread alone, and current. */
  function Boot(idle: nat): State {
    State([idle], 0, [], false, map[idle := Info(true, true, false)])
  }

  // ----- Every reachable state -----

  predicate Distinct(q: seq<nat>) {
    forall i, j :: 0 <= i < j < |q| ==> q[i] != q[j]
  }

  ghost predicate Inv(s: State, idle: nat) {
    && s.at < |s.ring| && s.ring[0] == idle && Eligible(s, idle)
    && Distinct(s.ring + s.queue)
  }

  /** In a ring of `n`, position `i` is passed on the way from `from` to `to`; a full round passes all the others. */
  predicate Passed(from: nat, to: nat, n: nat, i: nat) {
    if from < to then from < i < to else from < i < n || i < to
  }

  /** A pick runs the next thread round the ring that may run, and fails exactly when none may. */
  lemma {:induction false} NextPicks(s: State)
    requires s.at < |s.ring|
    ensures match Next(s)
            case Ok(s') =>
              && s'.at < |s.ring| && s' == s.(at := s'.at) && Eligible(s, s.ring[s'.at])
              && s.ring[s'.at] in s.info && s.info[s.ring[s'.at]] == Info(true, true, false)
              && forall i :: 0 <= i < |s.ring| && Passed(s.at, s'.at, |s.ring|, i) ==> !Eligible(s, s.ring[i])
            case AllBlocked => forall i :: 0 <= i < |s.ring| ==> !Eligible(s, s.ring[i])
  {
    var n := |s.ring|;
    forall i | 0 <= i < n
      ensures Next(s).Ok? ==> Passed(s.at, Next(s).state.at, n, i) ==> !Eligible(s, s.ring[i])
      ensures Next(s).AllBlocked? ==> !Eligible(s, s.ring[i])
    {
      var d := Distance(s.at, i, n);
      assert Ahead(s.at, d, n) == i;
    }
  }

  /** Some thread is picked, whatever the others are doing, because idle is on the walk. */
  lemma {:induction false} NeverAllBlocked(s: State, idle: nat)
    requires Inv(s, idle)
    ensures Next(s).Ok?
  {
    var d := Distance(s.at, 0, |s.ring|);
    assert Eligible(s, s.ring[Ahead(s.at, d, |s.ring|)]);
  }

  lemma {:induction false} StepKeeps(s: State, step: Step, idle: nat)
    requires Inv(s, idle) && Enabled(s, step)
    ensures Exec(s, step).Ok? && Inv(Exec(s, step).state, idle)
  {
    NeverAllBlocked(s, idle);
    match step
    case Drained => DrainDistinct(s.ring, s.queue);
    case Enqueue(t, _) => assert s.ring + (s.queue + [t]) == (s.ring + s.queue) + [t];
    case Replace(t, _) => ReplaceDistinct(s.ring, s.queue, s.at, t);
    case Remove(t) => CutDistinct(s.ring, s.queue, Position(s.ring, t));
    case _ =>
  }

  function CurrentThread(s: State): nat
    requires s.at < |s.ring|
  {
    s.ring[s.at]
  }

  /**
    No step loses or doubles a thread: enqueueing adds the new one, replacing puts it in the current
    one's place, removing takes one out, and everything else keeps them all.  The current thread changes
    by a pick or a replacement only.
    */
  lemma {:induction false} StepConserves(s: State, step: Step, idle: nat)
    requires Inv(s, idle) && Enabled(s, step)
    ensures Exec(s, step).Ok? && Exec(s, step).state.at < |Exec(s, step).state.ring|
    ensures var s' := Exec(s, step).state;
            var all, all' := multiset(s.ring) + multiset(s.queue), multiset(s'.ring) + multiset(s'.queue);
            match step
            case Enqueue(t, i) => all' == all + multiset{t} && CurrentThread(s') == CurrentThread(s)
            case Replace(t, i) => all' == all - multiset{CurrentThread(s)} + multiset{t} && CurrentThread(s') == t
            case Remove(t) => all' == all - multiset{t} && CurrentThread(s') == CurrentThread(s)
            case Pick => all' == all
            case _ => all' == all && CurrentThread(s') == CurrentThread(s)
  {
    hide Scan, Ahead, Eligible, Distinct, Drain, Next, Cut, Position, Reversed;
    StepKeeps(s, step, idle);
    match step
    case Pick => PickConserves(s);
    case Drained => DrainConserves(s);
    case Enqueue(t, _) => assert multiset(s.queue + [t]) == multiset(s.queue) + multiset{t};
    case Replace(t, i) => ReplaceConserves(s, t, i);
    case Remove(t) => RemoveConserves(s, t);
    case _ =>
  }

  lemma {:induction false} PickConserves(s: State)
    requires s.at < |s.ring|
    ensures Next(s).Ok? ==> Next(s).state.ring == s.ring && Next(s).state.queue == s.queue
  {
    NextPicks(s);
  }

  lemma {:induction false} DrainConserves(s: State)
    requires s.at < |s.ring|
    ensures var s' := Drain(s);
            && s'.at < |s'.ring| && CurrentThread(s') == CurrentThread(s)
            && multiset(s'.ring) + multiset(s'.queue) == multiset(s.ring) + multiset(s.queue)
  {
    hide Drain;
    DrainThreads(s);
  }

  lemma {:induction false} ReplaceConserves(s: State, t: nat, i: Info)
    requires Enabled(s, Replace(t, i))
    ensures var s' := Exec(s, Replace(t, i)).state;
            && s'.at < |s'.ring| && s'.queue == s.queue && CurrentThread(s') == t
            && multiset(s'.ring) == multiset(s.ring) - multiset{CurrentThread(s)} + multiset{t}
  {
    CutThreads(s.ring, s.at);
    hide Cut;
  }

  lemma {:induction false} RemoveConserves(s: State, t: nat)
    requires Enabled(s, Remove(t))
    ensures var s' := Exec(s, Remove(t)).state;
            && s'.at < |s'.ring| && s'.queue == s.queue && CurrentThread(s') == CurrentThread(s)
            && multiset(s'.ring) == multiset(s.ring) - multiset{t} && t in multiset(s.ring)
  {
    hide Cut, Position;
    CutCurrent(s.ring, Position(s.ring, t), s.at);
  }

  /** Another thread's removal leaves the current one current. */
  lemma {:induction false} CutCurrent(ring: seq<nat>, k: nat, at: nat)
    requires k < |ring| && at < |ring| && k != at
    ensures var at' := if k < at then at - 1 else at; at' < |Cut(ring, k)| && Cut(ring, k)[at'] == ring[at]
    ensures multiset(Cut(ring, k)) == multiset(ring) - multiset{ring[k]}
  {
    CutThreads(ring, k);
  }

  /** A drain puts the queue behind the ring, newest first. */
  lemma {:induction false} DrainThreads(s: State)
    ensures var s' := Drain(s);
            && multiset(s'.ring) + multiset(s'.queue) == multiset(s.ring) + multiset(s.queue)
            && s.ring <= s'.ring && s'.at == s.at && s'.info == s.info && s'.locked == !s.locked
            && (s.locked ==>
                  && s'.queue == [] && |s'.ring| == |s.ring| + |s.queue|
                  && forall k :: |s.ring| <= k < |s'.ring| ==> s'.ring[k] == s.queue[|s'.ring| - 1 - k])
  {
    ReversedThreads(s.queue);
  }

  lemma {:induction false} ReversedThreads(q: seq<nat>)
    ensures multiset(Reversed(q)) == multiset(q)
    decreases |q|
  {
    if q != [] {
      var n := |q| - 1;
      ReversedThreads(q[..n]);
      assert Reversed(q) == [q[n]] + Reversed(q[..n]) && q == q[..n] + [q[n]];
    } else {
      assert Reversed(q) == [];
    }
  }

  lemma {:induction false} CutThreads(ring: seq<nat>, k: nat)
    requires k < |ring|
    ensures multiset(Cut(ring, k)) == multiset(ring) - multiset{ring[k]} && |Cut(ring, k)| == |ring| - 1
  {
    assert ring == ring[..k] + [ring[k]] + ring[k + 1..];
  }

  lemma {:induction false} DrainDistinct(ring: seq<nat>, queue: seq<nat>)
    requires Distinct(ring + queue)
    ensures Distinct(ring + Reversed(queue) + [])
  {
    var all, q := ring + queue, ring + Reversed(queue) + [];
    forall i, j | 0 <= i < j < |q|
      ensures q[i] != q[j]
    {
      var i' := if i < |ring| then i else |ring| + (|q| - 1 - i);
      var j' := if j < |ring| then j else |ring| + (|q| - 1 - j);
      assert q[i] == all[i'] && q[j] == all[j'] && i' != j';
    }
  }

  lemma {:induction false} CutDistinct(ring: seq<nat>, queue: seq<nat>, k: nat)
    requires Distinct(ring + queue) && k < |ring|
    ensures Distinct(Cut(ring, k) + queue)
  {
    var all, q := ring + queue, Cut(ring, k) + queue;
    forall i, j | 0 <= i < j < |q|
      ensures q[i] != q[j]
    {
      assert q[i] == all[if i < k then i else i + 1] && q[j] == all[if j < k then j else j + 1];
    }
  }

  lemma {:induction false} ReplaceDistinct(ring: seq<nat>, queue: seq<nat>, k: nat, t: nat)
    requires Distinct(ring + queue) && k < |ring| && t !in ring && t !in queue
    ensures Distinct(Cut(ring, k) + [t] + queue)
  {
    CutDistinct(ring, queue, k);
    var all, q := Cut(ring, k) + queue, Cut(ring, k) + [t] + queue;
    var n := |ring| - 1;
    forall i, j | 0 <= i < j < |q|
      ensures q[i] != q[j]
    {
      if i != n && j != n {
        assert q[i] == all[if i < n then i else i - 1] && q[j] == all[if j < n then j else j - 1];
      }
    }
  }

  // ----- Runs -----

  ghost predicate IsRun(states: seq<State>, steps: seq<Step>) {
    |states| == |steps| + 1 &&
    forall k :: 0 <= k < |steps| ==> Enabled(states[k], steps[k]) && Exec(states[k], steps[k]) == Ok(states[k + 1])
  }

  /** From boot, in every reachable state: idle is head and eligible, the current thread is in the ring, no panic. */
  lemma {:induction false} RunKeeps(states: seq<State>, steps: seq<Step>, idle: nat, k: nat)
    requires IsRun(states, steps) && states[0] == Boot(idle) && k < |states|
    ensures Inv(states[k], idle)
    ensures InRing(states[k], states[k].ring[states[k].at])
    ensures Next(states[k]).Ok?
    decreases k
  {
    if k > 0 {
      RunKeeps(states, steps, idle, k - 1);
      var j := k - 1;
      assert Enabled(states[j], steps[j]) && Exec(states[j], steps[j]) == Ok(states[j + 1]);
      StepKeeps(states[j], steps[j], idle);
    }
    NeverAllBlocked(states[k], idle);
  }

  // ----- Bounded waiting -----

  /** One pick brings the current thread to `k`, or strictly closer to it. */
  lemma {:induction false} PickApproaches(s: State, k: nat)
    requires s.at < |s.ring| && k < |s.ring| && Eligible(s, s.ring[k])
    ensures Next(s).Ok? && Next(s).state.ring == s.ring
    ensures var s' := Next(s).state;
            s'.at == k || Distance(s'.at, k, |s.ring|) < Distance(s.at, k, |s.ring|)
  {
    var n, d := |s.ring|, Distance(s.at, k, |s.ring|);
    assert Eligible(s, s.ring[Ahead(s.at, d, n)]);
    var j := Scan(s, 1).value;
    assert j <= d;
  }

  /**
    A stretch of time in which the ring's members stay: at each pick the thread at `k` is eligible,
    and between picks anything may happen to which other threads are.
    */
  ghost predicate Stretch(before: seq<State>, after: seq<State>, ring: seq<nat>, k: nat)
    requires k < |ring|
  {
    && |before| == |after|
    && (forall i :: 0 <= i < |before| ==>
          before[i].ring == ring && before[i].at < |ring| && Eligible(before[i], ring[k]) &&
          Next(before[i]) == Ok(after[i]))
    && (forall i :: 0 < i < |before| ==> before[i].at == after[i - 1].at)
  }

  /** Each pick ran a thread that could run. */
  ghost predicate AllMayRun(before: seq<State>, after: seq<State>)
    requires |before| == |after|
  {
    forall i :: 0 <= i < |before| ==> after[i].at < |before[i].ring| && Eligible(before[i], before[i].ring[after[i].at])
  }

  lemma {:induction false} StretchMayRun(before: seq<State>, after: seq<State>, ring: seq<nat>, k: nat)
    requires k < |ring| && Stretch(before, after, ring, k)
    ensures AllMayRun(before, after)
  {
    forall i | 0 <= i < |before|
      ensures after[i].at < |ring| && Eligible(before[i], ring[after[i].at])
    {
      NextPicks(before[i]);
    }
  }

  lemma {:induction false} PickedWithin(before: seq<State>, after: seq<State>, ring: seq<nat>, k: nat)
    requires k < |ring| && Stretch(before, after, ring, k)
    requires |before| >= 1 && |before| >= Distance(before[0].at, k, |ring|)
    ensures exists i :: 0 <= i < Distance(before[0].at, k, |ring|) && after[i].at == k
    ensures AllMayRun(before, after)
    decreases |before|
  {
    hide Eligible, Next, AllMayRun;
    PickApproaches(before[0], k);
    StretchMayRun(before, after, ring, k);
    if after[0].at != k {
      var d := Distance(before[0].at, k, |ring|);
      assert before[1].at == after[0].at;
      assert Stretch(before[1..], after[1..], ring, k);
      PickedWithin(before[1..], after[1..], ring, k);
      var i :| 0 <= i < Distance(before[1].at, k, |ring|) && after[1..][i].at == k;
      assert after[i + 1].at == k;
    }
  }

  /** Among n ring members, a thread that stays eligible runs at the latest with the n-th pick. */
  lemma {:induction false} BoundedWaiting(before: seq<State>, after: seq<State>, ring: seq<nat>, k: nat)
    requires k < |ring| && Stretch(before, after, ring, k) && |before| == |ring|
    ensures exists i :: 0 <= i < |ring| && after[i].at == k
    ensures AllMayRun(before, after)
  {
    PickedWithin(before, after, ring, k);
  }

  /** A queued thread joins the ring with the first drain exactly when the lock word was set, else with the second. */
  lemma {:induction false} QueueReachesRing(s: State, t: nat)
    requires t in s.queue
    ensures t in Drain(s).ring <==> s.locked || t in s.ring
    ensures t in Drain(s).ring || t in Drain(Drain(s)).ring
  {
    var i :| 0 <= i < |s.queue| && s.queue[i] == t;
    assert Reversed(s.queue)[|s.queue| - 1 - i] == t;
  }

  // ----- The scheduler object -----

  class Scheduler {
    var s: State

    constructor (idle: nat)
      ensures s == Boot(idle) && Inv(s, idle)
    {
      s := Boot(idle);
    }

    /** The walk with its iterator, whose `first` starts as an address no item has. */
    method NextProcess() returns (picked: Option<nat>)
      requires s.at < |s.ring|
      modifies this
      ensures match Next(old(s))
              case Ok(s') => s == s' && picked == Some(s.ring[s.at])
              case AllBlocked => picked == None && s == old(s)
      ensures s == old(s).(at := s.at) && s.at < |s.ring|
      ensures match picked
              case Some(t) =>
                && t == s.ring[s.at] && Eligible(old(s), t)
                && forall i :: 0 <= i < |s.ring| && Passed(old(s).at, s.at, |s.ring|, i) ==>
                    !Eligible(old(s), s.ring[i])
              case None => s == old(s) && forall i :: 0 <= i < |s.ring| ==> !Eligible(s, s.ring[i])
    {
      NextPicks(s);
      var curr, n := s.at, |s.ring|;
      var first: Option<nat> := None;
      ghost var j := 0;
      while true
        invariant j <= n && curr == Ahead(s.at, j, n) && s == old(s)
        invariant first == if j == 0 then None else Some(Ahead(s.at, 1, n))
        invariant Scan(s, 1) == Scan(s, j + 1)
        decreases n - j
      {
        curr := if curr + 1 == n then 0 else curr + 1;
        if first == Some(curr) { return None; }
        if first == None { first := Some(curr); }
        j := j + 1;
        var t := s.ring[curr];
        if t in s.info && s.info[t].process && s.info[t].thread && !s.info[t].waiting {
          s := s.(at := curr);
          return Some(t);
        }
      }
    }

    method Processes()
      modifies this
      ensures s == Drain(old(s))
    {
      if !s.locked {
        s := s.(locked := true);
        return;
      }
      ghost var queue := s.queue;
      while s.queue != []
        invariant |s.queue| <= |queue| && s.queue == queue[..|s.queue|]
        invariant s == old(s).(queue := s.queue, ring := old(s).ring + Reversed(queue)[..|queue| - |s.queue|])
        decreases |s.queue|
      {
        var last := |s.queue| - 1;
        assert Reversed(queue)[..|queue| - last] == Reversed(queue)[..|queue| - |s.queue|] + [s.queue[last]];
        s := s.(ring := s.ring + [s.queue[last]], queue := s.queue[..last]);
      }
      assert Reversed(queue)[..|queue|] == Reversed(queue);
      s := s.(locked := false);
    }
  }
}
