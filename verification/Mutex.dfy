/** The hand-off mutex of src/mutex.c as an interleaving of threads. A step is one section
    protected by the spinlock `wlock`, or one scheduling or wake-up event. */
module Mutex {
  import opened Wrappers
  import opened Threads
  import opened Queues

  /** Where a thread stands: outside `mutex_lock`, inside its waiting loop after releasing
      `wlock`, or past `mutex_lock`. */
  datatype Pc = Outside | Waiting | Holding

  /** `arrivals` records the threads that had to queue, `grants` those given the mutex by a
      hand-off, each in order; the protocol never reads them. */
  datatype State = State(
    rlock: bool, owner: Option<Tid>, wq: seq<Tid>,
    status: StatusMap, pc: map<Tid, Pc>,
    arrivals: seq<Tid>, grants: seq<Tid>)

  datatype Action =
    | Lock(t: Tid)       // mutex_lock up to its first release of wlock
    | Resume(t: Tid)     // one round of the waiting loop, after schedule() returned
    | Unlock(t: Tid)     // mutex_unlock, called by a thread holding the mutex
    | Dispatch(t: Tid)   // schedule() switches to t
    | Preempt(t: Tid)    // schedule() takes the CPU from t
    | Sleep(t: Tid)      // t blocks for a reason that is not this mutex
    | Wake(t: Tid)       // wake_up(t) from anywhere, spurious ones included

  /** A thread may lock and unlock in any state: one that has just called `make_sleep` still runs
      and is BLOCKED, or READY if it was woken meanwhile (src/bbuf.c:260-261). */
  predicate Enabled(s: State, a: Action) {
    && a.t in s.status && a.t in s.pc
    && match a
       case Lock(t) => s.pc[t] == Outside
       case Resume(t) => s.status[t] == Running && s.pc[t] == Waiting
       case Unlock(t) => s.pc[t] == Holding
       case Dispatch(t) => s.status[t] == Ready
       case Preempt(t) => s.status[t] == Running
       case Sleep(t) => s.status[t] == Running && s.pc[t] != Waiting
       case Wake(t) => true
  }

  function Do(s: State, a: Action): State
    requires Enabled(s, a)
  {
    match a
    case Lock(t) =>
      if !s.rlock then s.(rlock := true, owner := Some(t), pc := s.pc[t := Holding])
      else s.(wq := Enqueue(s.wq, t), status := s.status[t := Blocked], pc := s.pc[t := Waiting],
              arrivals := s.arrivals + [t])
    case Resume(t) =>
      if s.owner == Some(t) then s.(wq := Without(s.wq, t), pc := s.pc[t := Holding])
      else s.(wq := Enqueue(s.wq, t), status := s.status[t := Blocked])
    case Unlock(t) =>
      if s.wq == [] then s.(owner := None, rlock := false, pc := s.pc[t := Outside])
      else s.(owner := Some(s.wq[0]), status := WakeUp(s.status, s.wq[0]), pc := s.pc[t := Outside],
              grants := s.grants + [s.wq[0]])
    case Dispatch(t) => s.(status := s.status[t := Running])
    case Preempt(t) => s.(status := s.status[t := Ready])
    case Sleep(t) => s.(status := s.status[t := Blocked])
    case Wake(t) => s.(status := WakeUp(s.status, t))
  }

  ghost predicate Initial(s: State) {
    && !s.rlock && s.owner == None && s.wq == [] && s.arrivals == [] && s.grants == []
    && s.status.Keys == s.pc.Keys && forall t :: t in s.pc ==> s.pc[t] == Outside
  }

  ghost predicate Runs(s: State, actions: seq<Action>)
    decreases |actions|
  {
    actions == [] || (Enabled(s, actions[0]) && Runs(Do(s, actions[0]), actions[1..]))
  }

  function After(s: State, actions: seq<Action>): State
    requires Runs(s, actions)
    decreases |actions|
  {
    if actions == [] then s else After(Do(s, actions[0]), actions[1..])
  }

  /** Waiters not yet granted the mutex, in order: a granted waiter stays at the head of the
      queue until it runs again. */
  function Pending(s: State): seq<Tid> {
    if s.wq != [] && s.owner == Some(s.wq[0]) then s.wq[1..] else s.wq
  }

  /** The queue holds exactly the threads in the waiting loop. */
  ghost predicate Queued(s: State) {
    && s.status.Keys == s.pc.Keys
    && NoDup(s.wq)
    && (forall t :: t in s.wq <==> t in s.pc && s.pc[t] == Waiting)
  }

  /** The owner is past `mutex_lock`, or heads the queue and is not blocked. */
  ghost predicate OwnerReady(s: State) {
    s.owner.Some? ==>
      && s.owner.value in s.pc && s.owner.value in s.status
      && (s.pc[s.owner.value] == Holding ||
          (s.wq != [] && s.wq[0] == s.owner.value && s.status[s.owner.value] != Blocked))
  }

  ghost predicate Owned(s: State) {
    // the raw lock is set exactly while there is an owner, and nobody waits for a free mutex
    && (s.rlock <==> s.owner.Some?)
    && (s.owner == None ==> s.wq == [])
    // past mutex_lock is the owner alone
    && (forall t :: t in s.pc && s.pc[t] == Holding ==> s.owner == Some(t))
  }

  /** Hand-offs follow arrivals. */
  ghost predicate InOrder(s: State) { s.arrivals == s.grants + Pending(s) }

  ghost predicate Inv(s: State) { Queued(s) && Owned(s) && OwnerReady(s) && InOrder(s) }

  /** Steps that change a status only. */
  lemma {:induction false} StatusKeepsInv(s: State, a: Action)
    requires Inv(s) && Enabled(s, a) && (a.Dispatch? || a.Preempt? || a.Sleep? || a.Wake?)
    ensures Inv(Do(s, a))
  {
    assert s.owner.Some? && s.pc[s.owner.value] != Holding ==> s.wq[0] in s.wq;
  }

  lemma {:induction false} LockKeepsInv(s: State, t: Tid)
    requires Inv(s) && Enabled(s, Lock(t))
    ensures Inv(Do(s, Lock(t)))
  {
    var s' := Do(s, Lock(t));
    assert t !in s.wq;
    if s.rlock {
      assert s'.wq == s.wq + [t];
      PushNoDup(s.wq, t);
      assert Pending(s') == Pending(s) + [t];
    } else {
      assert Pending(s') == [];
    }
  }

  lemma {:induction false} ResumeKeepsInv(s: State, t: Tid)
    requires Inv(s) && Enabled(s, Resume(t))
    ensures Inv(Do(s, Resume(t)))
  {
    assert t in s.wq;
    if s.owner == Some(t) {
      WithoutMembers(s.wq, t);
      assert s.wq[0] == t && Without(s.wq, t) == s.wq[1..];
      assert s.wq[1..] != [] ==> s.wq[1..][0] != t;
    }
  }

  lemma {:induction false} UnlockOwned(s: State, t: Tid)
    requires Inv(s) && Enabled(s, Unlock(t))
    ensures var s' := Do(s, Unlock(t)); Queued(s') && Owned(s') && OwnerReady(s')
  {
    hide InOrder;
    assert s.owner == Some(t) && t !in s.wq;
    assert s.wq != [] ==> s.wq[0] in s.wq;
  }

  lemma {:induction false} UnlockInOrder(s: State, t: Tid)
    requires Inv(s) && Enabled(s, Unlock(t))
    ensures InOrder(Do(s, Unlock(t)))
  {
    assert s.owner == Some(t) && t !in s.wq && Pending(s) == s.wq;
    hide Queued, Owned, OwnerReady;
    if s.wq != [] {
      assert s.wq == [s.wq[0]] + s.wq[1..];
      assert s.grants + s.wq == (s.grants + [s.wq[0]]) + s.wq[1..];
    }
  }

  lemma {:induction false} UnlockKeepsInv(s: State, t: Tid)
    requires Inv(s) && Enabled(s, Unlock(t))
    ensures Inv(Do(s, Unlock(t)))
  {
    UnlockOwned(s, t);
    UnlockInOrder(s, t);
  }

  /** Every step of every thread keeps the invariant. */
  lemma {:induction false} StepKeepsInv(s: State, a: Action)
    requires Inv(s) && Enabled(s, a)
    ensures Inv(Do(s, a))
  {
    match a
    case Lock(t) => LockKeepsInv(s, t);
    case Resume(t) => ResumeKeepsInv(s, t);
    case Unlock(t) => UnlockKeepsInv(s, t);
    case Dispatch(t) => StatusKeepsInv(s, a);
    case Preempt(t) => StatusKeepsInv(s, a);
    case Sleep(t) => StatusKeepsInv(s, a);
    case Wake(t) => StatusKeepsInv(s, a);
  }

  lemma {:induction false} RunKeepsInv(s: State, actions: seq<Action>)
    requires Inv(s) && Runs(s, actions)
    ensures Inv(After(s, actions))
    decreases |actions|
  {
    if actions != [] {
      StepKeepsInv(s, actions[0]);
      RunKeepsInv(Do(s, actions[0]), actions[1..]);
    }
  }

  /** Main result: in every interleaving, with arbitrary spurious wake-ups, at most one thread
      is past `mutex_lock` and it is the owner; the raw lock is held exactly while there is an
      owner, so a thread that takes it finds no owner; while anyone waits there is an owner, and
      an owner not yet past `mutex_lock` heads the queue and is not blocked. */
  lemma {:induction false} MutualExclusion(s0: State, actions: seq<Action>, t: Tid, u: Tid)
    requires Initial(s0) && Runs(s0, actions)
    ensures var s := After(s0, actions);
      && (t in s.pc && s.pc[t] == Holding ==> s.owner == Some(t))
      && (t in s.pc && u in s.pc && s.pc[t] == Holding && s.pc[u] == Holding ==> t == u)
      && (s.rlock <==> s.owner.Some?)
      && (t in s.pc && s.pc[t] == Waiting ==>
            s.owner.Some? && s.owner.value in s.pc && s.owner.value in s.status &&
            (s.pc[s.owner.value] == Holding ||
             (s.wq != [] && s.wq[0] == s.owner.value && s.status[s.owner.value] != Blocked)))
  {
    RunKeepsInv(s0, actions);
  }

  /** Hand-offs follow the order of arrival in the queue, without loss or repetition. */
  lemma {:induction false} HandOffInArrivalOrder(s0: State, actions: seq<Action>)
    requires Initial(s0) && Runs(s0, actions)
    ensures var s := After(s0, actions);
      s.grants <= s.arrivals && s.arrivals[|s.grants|..] == Pending(s)
  {
    RunKeepsInv(s0, actions);
  }

  function Unlocks(actions: seq<Action>): nat {
    if actions == [] then 0 else Unlocks(actions[1..]) + (if actions[0].Unlock? then 1 else 0)
  }

  function Min(a: nat, b: nat): nat { if a < b then a else b }

  lemma {:induction false} PendingShrinksByGrants(s: State, a: Action)
    requires Inv(s) && Enabled(s, a)
    ensures var s1 := Do(s, a);
      && s.grants <= s1.grants && s.arrivals <= s1.arrivals
      && |Pending(s1)| + |s1.grants| >= |Pending(s)| + |s.grants|
      && (a.Unlock? && Pending(s) != [] ==> |s1.grants| == |s.grants| + 1)
  {
    StepKeepsInv(s, a);
    if a.Unlock? { assert s.owner == Some(a.t) && a.t !in s.wq; }
  }

  /** Logs only grow, and every unlock grants as long as some waiter is pending. */
  lemma {:induction false} GrantsGrow(s: State, actions: seq<Action>)
    requires Inv(s) && Runs(s, actions)
    ensures Inv(After(s, actions))
    ensures s.grants <= After(s, actions).grants && s.arrivals <= After(s, actions).arrivals
    ensures |After(s, actions).grants| >= |s.grants| + Min(Unlocks(actions), |Pending(s)|)
    decreases |actions|
  {
    if actions != [] {
      var a := actions[0];
      var s1 := Do(s, a);
      StepKeepsInv(s, a);
      GrantsGrow(s1, actions[1..]);
      PendingShrinksByGrants(s, a);
    }
  }

  /** Bounded waiting: the waiter with `k` others pending before it is granted the mutex by the
      time of the (k+1)-st unlock, whatever else happens in between. */
  lemma {:induction false} BoundedWaiting(s: State, actions: seq<Action>, k: nat)
    requires Inv(s) && Runs(s, actions) && k < |Pending(s)| && Unlocks(actions) > k
    ensures var s' := After(s, actions);
      |s'.grants| > |s.grants| + k && s'.grants[|s.grants| + k] == Pending(s)[k]
  {
    var s' := After(s, actions);
    GrantsGrow(s, actions);
    var i := |s.grants| + k;
    assert s'.grants[i] == s'.arrivals[i] == s.arrivals[i];
    assert s.arrivals[i] == Pending(s)[k];
  }

  // --------------------------------------------------------------------- calls and returns

  /** The threads whose `mutex_lock` found the lock word set, in order. */
  function Arrivals(s: State, actions: seq<Action>): seq<Tid>
    requires Runs(s, actions)
    decreases |actions|
  {
    if actions == [] then []
    else
      (if actions[0].Lock? && s.rlock then [actions[0].t] else []) + Arrivals(Do(s, actions[0]), actions[1..])
  }

  /** The owners that the unlocks leave, in order. */
  function NewOwners(s: State, actions: seq<Action>): seq<Tid>
    requires Runs(s, actions)
    decreases |actions|
  {
    if actions == [] then []
    else
      var s1 := Do(s, actions[0]);
      (if actions[0].Unlock? && s1.owner.Some? then [s1.owner.value] else []) + NewOwners(s1, actions[1..])
  }

  lemma {:induction false} StepLogs(s: State, a: Action)
    requires Enabled(s, a)
    ensures var s' := Do(s, a);
      && s'.arrivals == s.arrivals + (if a.Lock? && s.rlock then [a.t] else [])
      && s'.grants == s.grants + (if a.Unlock? && s'.owner.Some? then [s'.owner.value] else [])
  {
  }

  /** The two logs are what the calls say they are. */
  lemma {:induction false} LogsAreHistory(s: State, actions: seq<Action>)
    requires Runs(s, actions)
    ensures After(s, actions).arrivals == s.arrivals + Arrivals(s, actions)
    ensures After(s, actions).grants == s.grants + NewOwners(s, actions)
    decreases |actions|
  {
    if actions != [] {
      StepLogs(s, actions[0]);
      hide Enabled, Do;
      var a, s1, rest := actions[0], Do(s, actions[0]), actions[1..];
      LogsAreHistory(s1, rest);
      Regroup(s.arrivals, if a.Lock? && s.rlock then [a.t] else [], Arrivals(s1, rest));
      Regroup(s.grants, if a.Unlock? && s1.owner.Some? then [s1.owner.value] else [], NewOwners(s1, rest));
    }
  }

  /** So the mutex goes to the waiters in the order of their calls. */
  lemma {:induction false} OwnersInArrivalOrder(s0: State, actions: seq<Action>)
    requires Initial(s0) && Runs(s0, actions)
    ensures NewOwners(s0, actions) <= Arrivals(s0, actions)
  {
    hide Runs, After, Arrivals, NewOwners, Pending;
    LogsAreHistory(s0, actions);
    HandOffInArrivalOrder(s0, actions);
    EmptyFirst(Arrivals(s0, actions));
    EmptyFirst(NewOwners(s0, actions));
  }

  /** The call of `mutex_lock` returns in this step: it found the lock word clear, or itself the
      owner when it looked again. */
  predicate Returns(s: State, a: Action) {
    (a.Lock? && !s.rlock) || (a.Resume? && s.owner == Some(a.t))
  }

  /** The threads that have returned from `mutex_lock` and not called `mutex_unlock` since, given
      those at the start. */
  ghost function Inside(s: State, inside: set<Tid>, actions: seq<Action>): set<Tid>
    requires Runs(s, actions)
    decreases |actions|
  {
    if actions == [] then inside
    else
      var a := actions[0];
      var now := if Returns(s, a) then inside + {a.t} else if a.Unlock? then inside - {a.t} else inside;
      Inside(Do(s, a), now, actions[1..])
  }

  ghost function Holders(s: State): set<Tid> { set t | t in s.pc && s.pc[t] == Holding }

  lemma {:induction false} StepHolders(s: State, a: Action)
    requires Inv(s) && Enabled(s, a)
    ensures Holders(Do(s, a)) ==
      if Returns(s, a) then Holders(s) + {a.t} else if a.Unlock? then Holders(s) - {a.t} else Holders(s)
  {
  }

  lemma {:induction false} RunHolders(s: State, actions: seq<Action>)
    requires Inv(s) && Runs(s, actions)
    ensures Inside(s, Holders(s), actions) == Holders(After(s, actions))
    decreases |actions|
  {
    if actions != [] {
      StepHolders(s, actions[0]);
      StepKeepsInv(s, actions[0]);
      hide Inv, Holders, Enabled, Do, Returns;
      RunHolders(Do(s, actions[0]), actions[1..]);
    }
  }

  lemma {:induction false} OneAtMost(x: set<Tid>, t: Tid)
    requires x <= {t}
    ensures |x| <= 1
  {
    if t in x { assert x == {t}; } else { assert x == {}; }
  }

  /** Mutual exclusion by what callers see: of the threads that returned from `mutex_lock` and have
      not called `mutex_unlock` since there is at most one, it is the owner, and then the lock word
      is set. */
  lemma {:induction false} AtMostOneInside(s0: State, actions: seq<Action>)
    requires Initial(s0) && Runs(s0, actions)
    ensures var s, inside := After(s0, actions), Inside(s0, {}, actions);
      && |inside| <= 1 && (forall t :: t in inside ==> s.owner == Some(t) && s.rlock)
  {
    assert Holders(s0) == {};
    RunHolders(s0, actions);
    RunKeepsInv(s0, actions);
    var s := After(s0, actions);
    hide Inside, Runs, After;
    if s.owner.Some? {
      assert Holders(s) <= {s.owner.value};
      OneAtMost(Holders(s), s.owner.value);
    } else {
      assert Holders(s) == {};
    }
  }

  predicate Goes(s: State, a: Action, s': State) { Enabled(s, a) && Do(s, a) == s' }

  /** A run through the given states. */
  ghost predicate Passes(states: seq<State>, actions: seq<Action>) {
    && |states| == |actions| + 1
    && forall i :: 0 <= i < |actions| ==> Goes(states[i], actions[i], states[i + 1])
  }

  lemma {:induction false} PassesRun(states: seq<State>, actions: seq<Action>)
    requires Passes(states, actions)
    ensures Runs(states[0], actions) && After(states[0], actions) == states[|actions|]
    decreases |actions|
  {
    hide Enabled, Do;
    if actions != [] {
      assert Passes(states[1..], actions[1..]);
      PassesRun(states[1..], actions[1..]);
    }
  }

  /** Threads 0 and 1 around one mutex, each with its status and place. */
  datatype At = At(status: Status, pc: Pc)

  function Two(owner: Option<Tid>, wq: seq<Tid>, t0: At, t1: At, log: seq<Tid>, grants: seq<Tid>): State {
    State(owner.Some?, owner, wq, map[0 := t0.status, 1 := t1.status], map[0 := t0.pc, 1 := t1.pc], log, grants)
  }

  lemma {:induction false} NewMutex()
    ensures Initial(Two(None, [], At(Running, Outside), At(Running, Outside), [], []))
  {
  }

  lemma {:induction false} FirstSteps()
    ensures Goes(Two(None, [], At(Running, Outside), At(Running, Outside), [], []), Lock(0),
                 Two(Some(0), [], At(Running, Holding), At(Running, Outside), [], []))
    ensures Goes(Two(Some(0), [], At(Running, Holding), At(Running, Outside), [], []), Lock(1),
                 Two(Some(0), [1], At(Running, Holding), At(Blocked, Waiting), [1], []))
    ensures Goes(Two(Some(0), [1], At(Running, Holding), At(Blocked, Waiting), [1], []), Wake(1),
                 Two(Some(0), [1], At(Running, Holding), At(Ready, Waiting), [1], []))
    ensures Goes(Two(Some(0), [1], At(Running, Holding), At(Ready, Waiting), [1], []), Dispatch(1),
                 Two(Some(0), [1], At(Running, Holding), At(Running, Waiting), [1], []))
  {
    assert Enqueue([], 1) == [1];
  }

  lemma {:induction false} MiddleSteps()
    ensures Goes(Two(Some(0), [1], At(Running, Holding), At(Running, Waiting), [1], []), Resume(1),
                 Two(Some(0), [1], At(Running, Holding), At(Blocked, Waiting), [1], []))
    ensures Goes(Two(Some(0), [1], At(Running, Holding), At(Blocked, Waiting), [1], []), Sleep(0),
                 Two(Some(0), [1], At(Blocked, Holding), At(Blocked, Waiting), [1], []))
    ensures Goes(Two(Some(0), [1], At(Blocked, Holding), At(Blocked, Waiting), [1], []), Unlock(0),
                 Two(Some(1), [1], At(Blocked, Outside), At(Ready, Waiting), [1], [1]))
  {
    assert Enqueue([1], 1) == [1];
  }

  lemma {:induction false} LastSteps()
    ensures Goes(Two(Some(1), [1], At(Blocked, Outside), At(Ready, Waiting), [1], [1]), Dispatch(1),
                 Two(Some(1), [1], At(Blocked, Outside), At(Running, Waiting), [1], [1]))
    ensures Goes(Two(Some(1), [1], At(Blocked, Outside), At(Running, Waiting), [1], [1]), Preempt(1),
                 Two(Some(1), [1], At(Blocked, Outside), At(Ready, Waiting), [1], [1]))
    ensures Goes(Two(Some(1), [1], At(Blocked, Outside), At(Running, Waiting), [1], [1]), Resume(1),
                 Two(Some(1), [], At(Blocked, Outside), At(Running, Holding), [1], [1]))
  {
    assert Without([1], 1) == [];
  }

  /** Two threads contend, and the second gets the mutex when the first lets go: thread 1 finds the
      lock taken and sleeps, is woken for nothing and sleeps again; thread 0 goes to sleep and
      unlocks as `wait_buffer` does; thread 1 runs, is preempted, runs again and returns. */
  lemma {:induction false} Contention()
    ensures var s0 := Two(None, [], At(Running, Outside), At(Running, Outside), [], []);
      var run := [Lock(0), Lock(1), Wake(1), Dispatch(1), Resume(1), Sleep(0), Unlock(0),
                  Dispatch(1), Preempt(1), Dispatch(1), Resume(1)];
      && Initial(s0) && Runs(s0, run)
      && After(s0, run) == Two(Some(1), [], At(Blocked, Outside), At(Running, Holding), [1], [1])
  {
    hide Goes, Two, Runs, After, Initial;
    NewMutex();
    FirstSteps();
    MiddleSteps();
    LastSteps();
    var run := [Lock(0), Lock(1), Wake(1), Dispatch(1), Resume(1), Sleep(0), Unlock(0),
                Dispatch(1), Preempt(1), Dispatch(1), Resume(1)];
    var states := [
      Two(None, [], At(Running, Outside), At(Running, Outside), [], []),
      Two(Some(0), [], At(Running, Holding), At(Running, Outside), [], []),
      Two(Some(0), [1], At(Running, Holding), At(Blocked, Waiting), [1], []),
      Two(Some(0), [1], At(Running, Holding), At(Ready, Waiting), [1], []),
      Two(Some(0), [1], At(Running, Holding), At(Running, Waiting), [1], []),
      Two(Some(0), [1], At(Running, Holding), At(Blocked, Waiting), [1], []),
      Two(Some(0), [1], At(Blocked, Holding), At(Blocked, Waiting), [1], []),
      Two(Some(1), [1], At(Blocked, Outside), At(Ready, Waiting), [1], [1]),
      Two(Some(1), [1], At(Blocked, Outside), At(Running, Waiting), [1], [1]),
      Two(Some(1), [1], At(Blocked, Outside), At(Ready, Waiting), [1], [1]),
      Two(Some(1), [1], At(Blocked, Outside), At(Running, Waiting), [1], [1]),
      Two(Some(1), [], At(Blocked, Outside), At(Running, Holding), [1], [1])];
    assert Passes(states, run);
    PassesRun(states, run);
  }

  // ------------------------------------------------------------------------ the sections

  /** The lock record with the statuses of the threads using it; program points and logs are
      kept beside it for the proof. */
  class MutexLock {
    var mlock: nat
    var owner: Option<Tid>
    var wq: seq<Tid>
    var status: StatusMap
    ghost var pc: map<Tid, Pc>
    ghost var arrivals: seq<Tid>
    ghost var grants: seq<Tid>

    ghost function Abs(): State
      reads this
    {
      State(mlock != 0, owner, wq, status, pc, arrivals, grants)
    }

    /** `mutex_init`. */
    constructor (threads: StatusMap)
      ensures Initial(Abs()) && status == threads
    {
      mlock, owner, wq, status := 0, None, [], threads;
      pc := map t | t in threads :: Outside;
      arrivals, grants := [], [];
    }

    /** `mutex_add_to_wq`. */
    method AddToWq(t: Tid)
      modifies this`wq
      ensures wq == Enqueue(old(wq), t)
    {
      for i := 0 to |wq|
        invariant forall k :: 0 <= k < i ==> wq[k] != t
        invariant wq == old(wq)
      {
        if wq[i] == t {
          return;
        }
      }
      wq := wq + [t];
    }

    /** `mutex_remove_from_wq`. */
    method RemoveFromWq(t: Tid)
      modifies this`wq
      ensures wq == Without(old(wq), t)
    {
      for i := 0 to |wq|
        invariant forall k :: 0 <= k < i ==> wq[k] != t
        invariant wq == old(wq) && Without(wq, t) == wq[..i] + Without(wq[i..], t)
      {
        if wq[i] == t {
          wq := wq[..i] + wq[i + 1..];
          return;
        }
        assert wq[i..][1..] == wq[i + 1..];
        assert wq[..i + 1] == wq[..i] + [wq[i]];
      }
    }

    /** `mutex_lock` up to its first release of `wlock`. */
    method LockSection(t: Tid) returns (acquired: bool)
      requires Inv(Abs()) && Enabled(Abs(), Lock(t))
      modifies this
      ensures Inv(Abs()) && Abs() == Do(old(Abs()), Lock(t))
      ensures acquired <==> old(mlock) == 0
      ensures mlock != 0
      ensures acquired ==>
        owner == Some(t) && pc == old(pc)[t := Holding] && wq == old(wq) && status == old(status)
      ensures !acquired ==>
        && owner == old(owner) && wq == old(wq) + [t]
        && status == old(status)[t := Blocked] && pc == old(pc)[t := Waiting]
    {
      ghost var s := Abs();
      StepKeepsInv(s, Lock(t));
      var taken := mlock;
      mlock := 1;
      if taken == 0 {
        assert owner == None;               // the ASSERT of the source
        owner := Some(t);
        pc := pc[t := Holding];
        acquired := true;
      } else {
        AddToWq(t);
        status := status[t := Blocked];
        pc, arrivals := pc[t := Waiting], arrivals + [t];
        acquired := false;
      }
      assert Abs() == Do(s, Lock(t));
    }

    /** One round of the waiting loop: leave as the owner, or queue and sleep again. */
    method ResumeSection(t: Tid) returns (acquired: bool)
      requires Inv(Abs()) && Enabled(Abs(), Resume(t))
      modifies this
      ensures Inv(Abs()) && Abs() == Do(old(Abs()), Resume(t))
      ensures acquired <==> old(owner) == Some(t)
      ensures mlock == old(mlock) && owner == old(owner)
      ensures acquired ==> pc == old(pc)[t := Holding] && [t] + wq == old(wq) && status == old(status)
      ensures !acquired ==> pc == old(pc) && wq == old(wq) && status == old(status)[t := Blocked]
    {
      ghost var s := Abs();
      StepKeepsInv(s, Resume(t));
      acquired := owner == Some(t);
      if acquired {
        RemoveFromWq(t);
        pc := pc[t := Holding];
      } else {
        AddToWq(t);
        status := status[t := Blocked];
      }
      assert Abs() == Do(s, Resume(t));
    }

    /** `mutex_unlock`. */
    method UnlockSection(t: Tid)
      requires Inv(Abs()) && Enabled(Abs(), Unlock(t))
      modifies this
      ensures Inv(Abs()) && Abs() == Do(old(Abs()), Unlock(t))
      ensures pc == old(pc)[t := Outside] && wq == old(wq)
      ensures old(wq) == [] ==> mlock == 0 && owner == None && status == old(status)
      ensures old(wq) != [] ==>
        && mlock == old(mlock) != 0 && owner == Some(old(wq)[0]) && old(wq)[0] in status
        && status[old(wq)[0]] != Blocked && forall u :: u in status && u != old(wq)[0] ==> status[u] == old(status)[u]
    {
      ghost var s := Abs();
      StepKeepsInv(s, Unlock(t));
      if wq == [] {
        owner := None;
        mlock := 0;
      } else {
        var p := wq[0];
        owner := Some(p);
        status := WakeUp(status, p);
        grants := grants + [p];
      }
      pc := pc[t := Outside];
      assert Abs() == Do(s, Unlock(t));
    }
  }
}
