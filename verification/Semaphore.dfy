/** The semaphore of src/semaphore.c, together with the timed sleep of src/sched.c:385-411, as an
    interleaving of threads. Unlike the mutex, a waiter is removed from the queue when it is
    granted and does not check again when it wakes, so the proof rests on nothing else being able
    to wake it. */
module Semaphore {
  import opened Bits
  import opened Wrappers
  import opened Threads
  import opened Queues

  /** `Arming` is inside `pause` with the alarm set and before going to sleep. */
  datatype Pc = Outside | Waiting | Arming | Paused

  /** `granted` counts permits taken or handed over, `entered` the returns from `sem_down`, `ups`
      the calls of `sem_up`; `arrivals` and `handoffs` list queued and granted waiters in order.
      The code reads none of these five. */
  datatype State = State(
    count: Word, wq: seq<Tid>, status: StatusMap, pc: map<Tid, Pc>, armed: set<Tid>,
    granted: nat, entered: nat, ups: nat, arrivals: seq<Tid>, handoffs: seq<Tid>)

  datatype Action =
    | Down(t: Tid)        // sem_down up to its return or its release of semlock
    | Return(t: Tid)      // a woken waiter leaves sem_down
    | Up(t: Tid)          // sem_up
    | PauseArm(t: Tid)    // pause() sets the alarm
    | PauseSleep(t: Tid)  // pause() blocks
    | PauseReturn(t: Tid) // pause() returns
    | AlarmFires(t: Tid)  // check_thread_alarms finds t blocked with an expired alarm
    | Sleep(t: Tid)       // t blocks elsewhere, on a mutex or a buffer
    | Wake(t: Tid)        // and is woken there
    | Dispatch(t: Tid)
    | Preempt(t: Tid)

  predicate Enabled(s: State, a: Action) {
    && a.t in s.status && a.t in s.pc
    && match a
       case Down(t) => s.status[t] == Running && s.pc[t] == Outside
       case Return(t) => s.status[t] == Running && s.pc[t] == Waiting
       case Up(t) => s.pc[t] == Outside
       case PauseArm(t) => s.status[t] == Running && s.pc[t] == Outside
       case PauseSleep(t) => s.status[t] == Running && s.pc[t] == Arming
       case PauseReturn(t) => s.status[t] == Running && s.pc[t] == Paused
       case AlarmFires(t) => s.status[t] == Blocked && t in s.armed
       case Sleep(t) => s.status[t] == Running && s.pc[t] == Outside
       case Wake(t) => s.pc[t] == Outside
       case Dispatch(t) => s.status[t] == Ready
       case Preempt(t) => s.status[t] == Running
  }

  function Do(s: State, a: Action): State
    requires Enabled(s, a)
  {
    match a
    case Down(t) =>
      if s.count > 0 then s.(count := s.count - 1, granted := s.granted + 1, entered := s.entered + 1)
      else s.(wq := Enqueue(s.wq, t), status := s.status[t := Blocked], pc := s.pc[t := Waiting],
              arrivals := s.arrivals + [t])
    case Return(t) => s.(pc := s.pc[t := Outside], entered := s.entered + 1)
    case Up(t) =>
      if s.wq == [] then s.(count := Add(s.count, 1), ups := s.ups + 1)
      else s.(status := WakeUp(s.status, s.wq[0]), wq := s.wq[1..], ups := s.ups + 1,
              granted := s.granted + 1, handoffs := s.handoffs + [s.wq[0]])
    case PauseArm(t) => s.(armed := s.armed + {t}, pc := s.pc[t := Arming])
    case PauseSleep(t) => s.(status := s.status[t := Blocked], pc := s.pc[t := Paused])
    case PauseReturn(t) => s.(pc := s.pc[t := Outside])
    case AlarmFires(t) => s.(armed := s.armed - {t}, status := WakeUp(s.status, t))
    case Sleep(t) => s.(status := s.status[t := Blocked])
    case Wake(t) => s.(status := WakeUp(s.status, t))
    case Dispatch(t) => s.(status := s.status[t := Running])
    case Preempt(t) => s.(status := s.status[t := Ready])
  }

  ghost predicate Initial(s: State) {
    && s.wq == [] && s.armed == {} && s.granted == 0 && s.entered == 0 && s.ups == 0
    && s.arrivals == [] && s.handoffs == []
    && s.status.Keys == s.pc.Keys && forall t :: t in s.pc ==> s.pc[t] == Outside
  }

  /** Waiters that have been granted a permit and have not returned yet. */
  ghost function InFlight(s: State): set<Tid> {
    set t | t in s.pc && s.pc[t] == Waiting && t !in s.wq
  }

  /** Queued waiters are blocked, all other waiters are not. */
  ghost predicate Waits(s: State) {
    && s.status.Keys == s.pc.Keys
    && NoDup(s.wq)
    && (forall t :: t in s.wq ==> t in s.pc && s.pc[t] == Waiting)
    && (forall t :: t in s.pc && s.pc[t] == Waiting ==> t in s.status && (t in s.wq <==> s.status[t] == Blocked))
  }

  /** Only a pausing thread has its alarm set, and it has it exactly until it is woken. */
  ghost predicate Alarms(s: State) {
    && (forall t :: t in s.armed ==> t in s.pc && (s.pc[t] == Arming || s.pc[t] == Paused))
    && (forall t :: t in s.pc && s.pc[t] == Arming ==> t in s.armed && t in s.status && s.status[t] != Blocked)
    && (forall t :: t in s.pc && s.pc[t] == Paused ==> t in s.status && (t in s.armed <==> s.status[t] == Blocked))
  }

  ghost predicate Permits(s: State, init: nat) {
    // no permit is left lying while someone waits
    && (s.wq != [] ==> s.count == 0)
    // permits are conserved, the count wrapping at 2^32
    && s.granted <= init + s.ups && s.count == (init + s.ups - s.granted) % 0x1_0000_0000
    && s.granted == s.entered + |InFlight(s)|
  }

  ghost predicate Inv(s: State, init: nat) {
    Waits(s) && Alarms(s) && Permits(s, init) && s.arrivals == s.handoffs + s.wq
  }

  ghost predicate Runs(s: State, actions: seq<Action>)
    decreases |actions|
  {
    actions == [] || (Enabled(s, actions[0]) && Runs(Do(s, actions[0]), actions[1..]))
  }

  function After(s: State, actions: seq<Action>): State
    requires Runs(s, actions)
    decreases |actions|
  {
    if actions == [] then s else After(Do(s, actions[0]), actions[1..])
  }

  lemma {:induction false} OneLess(x: int)
    requires x >= 0 && x % 0x1_0000_0000 > 0
    ensures x >= 1 && (x - 1) % 0x1_0000_0000 == x % 0x1_0000_0000 - 1
  {
  }

  lemma {:induction false} DownKeepsInv(s: State, init: nat, t: Tid)
    requires Inv(s, init) && Enabled(s, Down(t))
    ensures Inv(Do(s, Down(t)), init)
  {
    var s' := Do(s, Down(t));
    assert t !in s.wq;
    assert InFlight(s') == InFlight(s);
    if s.count > 0 { OneLess(init + s.ups - s.granted); } else { PushNoDup(s.wq, t); }
  }

  lemma {:induction false} OneMore(x: nat, c: Word)
    requires c == x % 0x1_0000_0000
    ensures Add(c, 1) == (x + 1) % 0x1_0000_0000
  {
  }

  lemma {:induction false} ReturnKeepsInv(s: State, init: nat, t: Tid)
    requires Inv(s, init) && Enabled(s, Return(t))
    ensures Inv(Do(s, Return(t)), init)
  {
    var s' := Do(s, Return(t));
    assert t !in s.wq && t in InFlight(s);
    assert InFlight(s') == InFlight(s) - {t};
  }

  /** `wake_up` in `sem_up` always finds its target blocked. */
  lemma {:induction false} UpWakesBlocked(s: State, init: nat)
    requires Inv(s, init) && s.wq != []
    ensures s.wq[0] in s.status && s.status[s.wq[0]] == Blocked
    ensures WakeUp(s.status, s.wq[0])[s.wq[0]] == Ready
  {
    assert s.wq[0] in s.wq;
  }

  lemma {:induction false} HeadLeaves(q: seq<Tid>)
    requires q != [] && NoDup(q)
    ensures NoDup(q[1..]) && q[0] in q && forall u :: u in q[1..] <==> u in q && u != q[0]
  {
    assert q == [q[0]] + q[1..];
  }

  lemma {:induction false} UpKeepsWaits(s: State, init: nat, t: Tid)
    requires Inv(s, init) && Enabled(s, Up(t))
    ensures Waits(Do(s, Up(t))) && Alarms(Do(s, Up(t)))
  {
    if s.wq != [] {
      UpWakesBlocked(s, init);
      hide Permits;
      HeadLeaves(s.wq);
    }
  }

  lemma {:induction false} UpKeepsPermits(s: State, init: nat, t: Tid)
    requires Inv(s, init) && Enabled(s, Up(t))
    ensures Permits(Do(s, Up(t)), init)
  {
    var s' := Do(s, Up(t));
    hide Alarms;
    if s.wq == [] {
      OneMore(init + s.ups - s.granted, s.count);
      assert InFlight(s') == InFlight(s);
    } else {
      HeadLeaves(s.wq);
      assert InFlight(s') == InFlight(s) + {s.wq[0]} && s.wq[0] !in InFlight(s);
    }
  }

  lemma {:induction false} UpKeepsInv(s: State, init: nat, t: Tid)
    requires Inv(s, init) && Enabled(s, Up(t))
    ensures Inv(Do(s, Up(t)), init)
  {
    UpKeepsWaits(s, init, t);
    UpKeepsPermits(s, init, t);
    hide Waits, Alarms, Permits;
    if s.wq != [] {
      assert s.wq == [s.wq[0]] + s.wq[1..];
      assert s.handoffs + s.wq == (s.handoffs + [s.wq[0]]) + s.wq[1..];
    }
  }

  lemma {:induction false} OtherKeepsWaits(s: State, a: Action)
    requires Waits(s) && Alarms(s) && Enabled(s, a) && !a.Down? && !a.Return? && !a.Up?
    ensures Waits(Do(s, a))
  {
  }

  lemma {:induction false} OtherKeepsAlarms(s: State, a: Action)
    requires Waits(s) && Alarms(s) && Enabled(s, a) && !a.Down? && !a.Return? && !a.Up?
    ensures Alarms(Do(s, a))
  {
  }

  /** Steps that touch neither the queue nor a permit. */
  lemma {:induction false} OtherKeepsInv(s: State, init: nat, a: Action)
    requires Inv(s, init) && Enabled(s, a) && !a.Down? && !a.Return? && !a.Up?
    ensures Inv(Do(s, a), init)
  {
    var s' := Do(s, a);
    assert InFlight(s') == InFlight(s);
    OtherKeepsWaits(s, a);
    OtherKeepsAlarms(s, a);
    hide Waits, Alarms;
  }

  lemma {:induction false} StepKeepsInv(s: State, init: nat, a: Action)
    requires Inv(s, init) && Enabled(s, a)
    ensures Inv(Do(s, a), init)
  {
    hide Waits, Alarms, Permits;
    if a.Down? { DownKeepsInv(s, init, a.t); }
    else if a.Return? { ReturnKeepsInv(s, init, a.t); }
    else if a.Up? { UpKeepsInv(s, init, a.t); }
    else { OtherKeepsInv(s, init, a); }
  }

  lemma {:induction false} RunKeepsInv(s: State, init: nat, actions: seq<Action>)
    requires Inv(s, init) && Runs(s, actions)
    ensures Inv(After(s, actions), init)
    decreases |actions|
  {
    if actions != [] {
      StepKeepsInv(s, init, actions[0]);
      RunKeepsInv(Do(s, actions[0]), init, actions[1..]);
    }
  }

  lemma {:induction false} InitialInv(s: State)
    requires Initial(s)
    ensures Inv(s, s.count)
  {
    assert InFlight(s) == {};
  }

  /** Main result: in every interleaving, permits are conserved. The count is the initial count
      plus the ups minus the permits given out, exactly as long as that number fits a word and
      modulo 2^32 beyond; threads past `sem_down` never outnumber initial count plus ups; a
      non-empty queue means no permit is available, so nobody overtakes a waiter. */
  lemma {:induction false} PermitsConserved(s0: State, actions: seq<Action>)
    requires Initial(s0) && Runs(s0, actions)
    ensures var s := After(s0, actions);
      && s.entered + |InFlight(s)| == s.granted <= s0.count + s.ups
      && (s.count + s.granted == s0.count + s.ups <==> s0.count + s.ups - s.granted < WORD_SIZE)
      && s.count == (s0.count + s.ups - s.granted) % 0x1_0000_0000
      && (s.wq != [] ==> s.count == 0)
  {
    InitialInv(s0);
    RunKeepsInv(s0, s0.count, actions);
  }

  /** Grants are first come, first served, and no waiter can be woken by an alarm. */
  lemma {:induction false} FifoAndUndisturbed(s0: State, actions: seq<Action>, t: Tid)
    requires Initial(s0) && Runs(s0, actions)
    ensures var s := After(s0, actions);
      && s.arrivals == s.handoffs + s.wq
      && (t in s.pc && s.pc[t] == Waiting ==> t !in s.armed && !Enabled(s, AlarmFires(t)))
      && (t in s.wq ==> t in s.status && s.status[t] == Blocked)
  {
    InitialInv(s0);
    RunKeepsInv(s0, s0.count, actions);
  }

  /** The failing side of the condition on the count: one more permit than a word can hold. */
  lemma {:induction false} CountWraps()
    ensures var s0 := State(0xFFFF_FFFF, [], map[0 := Running], map[0 := Outside], {}, 0, 0, 0, [], []);
      && Initial(s0) && Runs(s0, [Up(0)])
      && var s := After(s0, [Up(0)]);
      && s.count == 0 && s.count + s.granted != s0.count + s.ups
  {
    var s0 := State(0xFFFF_FFFF, [], map[0 := Running], map[0 := Outside], {}, 0, 0, 0, [], []);
    var run := [Up(0)];
    assert run[1..] == [];
    assert Enabled(s0, run[0]) && Do(s0, run[0]).count == 0;
    assert Runs(Do(s0, run[0]), run[1..]);
  }

  function Ups(actions: seq<Action>): nat {
    if actions == [] then 0 else Ups(actions[1..]) + (if actions[0].Up? then 1 else 0)
  }

  function Min(a: nat, b: nat): nat { if a < b then a else b }

  /** Calls of `sem_down` that have returned: a count was there, or a woken waiter left. */
  function Entries(s: State, actions: seq<Action>): nat
    requires Runs(s, actions)
    decreases |actions|
  {
    if actions == [] then 0
    else
      Entries(Do(s, actions[0]), actions[1..]) +
      (if (actions[0].Down? && s.count > 0) || actions[0].Return? then 1 else 0)
  }

  /** The threads whose `sem_down` found the count 0, in order. */
  function Arrivals(s: State, actions: seq<Action>): seq<Tid>
    requires Runs(s, actions)
    decreases |actions|
  {
    if actions == [] then []
    else
      (if actions[0].Down? && s.count == 0 then [actions[0].t] else []) + Arrivals(Do(s, actions[0]), actions[1..])
  }

  /** The threads that the calls of `sem_up` make ready, in order. */
  function Woken(s: State, actions: seq<Action>): seq<Tid>
    requires Runs(s, actions)
    decreases |actions|
  {
    if actions == [] then []
    else
      var s1 := Do(s, actions[0]);
      (if actions[0].Up? && s.wq != [] then [s.wq[0]] else []) + Woken(s1, actions[1..])
  }

  lemma {:induction false} StepLogs(s: State, a: Action)
    requires Enabled(s, a)
    ensures var s' := Do(s, a);
      && s'.ups == s.ups + (if a.Up? then 1 else 0)
      && s'.entered == s.entered + (if (a.Down? && s.count > 0) || a.Return? then 1 else 0)
      && s'.arrivals == s.arrivals + (if a.Down? && s.count == 0 then [a.t] else [])
      && s'.handoffs == s.handoffs + (if a.Up? && s.wq != [] then [s.wq[0]] else [])
  {
  }

  /** The counters and logs are what the calls say they are. */
  lemma {:induction false} LogsAreHistory(s: State, actions: seq<Action>)
    requires Runs(s, actions)
    ensures var s' := After(s, actions);
      && s'.ups == s.ups + Ups(actions) && s'.entered == s.entered + Entries(s, actions)
      && s'.arrivals == s.arrivals + Arrivals(s, actions) && s'.handoffs == s.handoffs + Woken(s, actions)
    decreases |actions|
  {
    if actions != [] {
      StepLogs(s, actions[0]);
      hide Enabled, Do;
      var a, s1, rest := actions[0], Do(s, actions[0]), actions[1..];
      LogsAreHistory(s1, rest);
      Regroup(s.arrivals, if a.Down? && s.count == 0 then [a.t] else [], Arrivals(s1, rest));
      Regroup(s.handoffs, if a.Up? && s.wq != [] then [s.wq[0]] else [], Woken(s1, rest));
    }
  }

  /** Permits by what callers see: the count, the returns from `sem_down` and the waiters woken and
      about to return balance the initial count and the calls of `sem_up`, exactly while that fits
      a word; and waiters are woken in the order of their calls. */
  lemma {:induction false} CallsBalance(s0: State, actions: seq<Action>)
    requires Initial(s0) && Runs(s0, actions)
    ensures var s := After(s0, actions);
      var given := Entries(s0, actions) + |InFlight(s)|;
      && given <= s0.count + Ups(actions)
      && s.count == (s0.count + Ups(actions) - given) % 0x1_0000_0000
      && Woken(s0, actions) <= Arrivals(s0, actions)
  {
    hide Runs, After, Arrivals, Woken, Entries, Ups, Waits, Alarms, InFlight;
    InitialInv(s0);
    RunKeepsInv(s0, s0.count, actions);
    LogsAreHistory(s0, actions);
    EmptyFirst(Arrivals(s0, actions));
    EmptyFirst(Woken(s0, actions));
  }

  lemma {:induction false} StepGrants(s: State, init: nat, a: Action)
    requires Inv(s, init) && Enabled(s, a)
    ensures var s' := Do(s, a);
      && s.handoffs <= s'.handoffs && s.arrivals <= s'.arrivals
      && |s'.wq| + |s'.handoffs| >= |s.wq| + |s.handoffs|
      && (a.Up? && s.wq != [] ==> |s'.handoffs| == |s.handoffs| + 1)
  {
    hide Permits, Alarms;
    assert a.Down? ==> a.t !in s.wq;
  }

  /** Logs only grow, and every `sem_up` grants as long as someone is queued. */
  lemma {:induction false} GrantsGrow(s: State, init: nat, actions: seq<Action>)
    requires Inv(s, init) && Runs(s, actions)
    ensures Inv(After(s, actions), init)
    ensures s.handoffs <= After(s, actions).handoffs && s.arrivals <= After(s, actions).arrivals
    ensures |After(s, actions).handoffs| >= |s.handoffs| + Min(Ups(actions), |s.wq|)
    decreases |actions|
  {
    if actions != [] {
      StepKeepsInv(s, init, actions[0]);
      StepGrants(s, init, actions[0]);
      hide Inv;
      GrantsGrow(Do(s, actions[0]), init, actions[1..]);
    }
  }

  /** Bounded waiting: the waiter with `k` others queued before it is granted a permit by the time
      of the (k+1)-st `sem_up`, whatever else happens in between. */
  lemma {:induction false} BoundedWaiting(s: State, init: nat, actions: seq<Action>, k: nat)
    requires Inv(s, init) && Runs(s, actions) && k < |s.wq| && Ups(actions) > k
    ensures var s' := After(s, actions);
      |s'.handoffs| > |s.handoffs| + k && s'.handoffs[|s.handoffs| + k] == s.wq[k]
  {
    var s' := After(s, actions);
    GrantsGrow(s, init, actions);
    var i := |s.handoffs| + k;
    assert s.arrivals == s.handoffs + s.wq && s'.arrivals == s'.handoffs + s'.wq;
    hide Inv, Runs, After;
    assert s'.handoffs[i] == s'.arrivals[i] == s.arrivals[i];
  }

  /** Why nothing else may wake a waiter: woken from outside, a queued thread is dispatched, returns
      from `sem_down` and is inside without a permit. Waking a thread that sleeps elsewhere is
      harmless. */
  lemma {:induction false} SpuriousWakeLeaksIffQueued(s: State, init: nat, t: Tid)
    requires Inv(s, init) && t in s.status && s.status[t] == Blocked && t !in s.armed
    ensures var s1 := s.(status := WakeUp(s.status, t));
      && (t !in s.wq ==> Inv(s1, init))
      && (t in s.wq ==>
            && Enabled(s1, Dispatch(t)) && Enabled(Do(s1, Dispatch(t)), Return(t))
            && var s3 := Do(Do(s1, Dispatch(t)), Return(t));
            s3.entered + |InFlight(s3)| == s3.granted + 1)
  {
    var s1 := s.(status := WakeUp(s.status, t));
    assert InFlight(s1) == InFlight(s);
    if t in s.wq {
      var s3 := Do(Do(s1, Dispatch(t)), Return(t));
      assert InFlight(s3) == InFlight(s);
    }
  }

  // ---------------------------------------------------------------------------- it happens

  predicate Goes(s: State, a: Action, s': State) { Enabled(s, a) && Do(s, a) == s' }

  /** A run through the given states. */
  ghost predicate Passes(states: seq<State>, actions: seq<Action>) {
    && |states| == |actions| + 1
    && forall i :: 0 <= i < |actions| ==> Goes(states[i], actions[i], states[i + 1])
  }

  lemma {:induction false} PassesRun(states: seq<State>, actions: seq<Action>)
    requires Passes(states, actions)
    ensures Runs(states[0], actions) && After(states[0], actions) == states[|actions|]
    decreases |actions|
  {
    hide Enabled, Do;
    if actions != [] {
      assert Passes(states[1..], actions[1..]);
      PassesRun(states[1..], actions[1..]);
    }
  }

  /** Thread 0, which holds the only permit, and thread 1. */
  function One(
      st0: Status, st: Status, pc: Pc, armed: set<Tid>, wq: seq<Tid>, given: nat, entered: nat, ups: nat): State {
    State(0, wq, map[0 := st0, 1 := st], map[0 := Outside, 1 := pc], armed, given, entered, ups,
          if pc == Waiting || entered > 1 then [1] else [], if ups > 0 then [1] else [])
  }

  /** Both threads outside a semaphore with one permit. */
  function Fresh(): State {
    State(1, [], map[0 := Running, 1 := Running], map[0 := Outside, 1 := Outside], {}, 0, 0, 0, [], [])
  }

  lemma {:induction false} TakesOnly()
    ensures Initial(Fresh()) && Goes(Fresh(), Down(0), One(Running, Running, Outside, {}, [], 1, 1, 0))
  {
  }

  lemma {:induction false} PauseSteps()
    ensures Goes(One(Running, Running, Outside, {}, [], 1, 1, 0), PauseArm(1),
                 One(Running, Running, Arming, {1}, [], 1, 1, 0))
    ensures Goes(One(Running, Running, Arming, {1}, [], 1, 1, 0), PauseSleep(1),
                 One(Running, Blocked, Paused, {1}, [], 1, 1, 0))
    ensures Goes(One(Running, Blocked, Paused, {1}, [], 1, 1, 0), AlarmFires(1),
                 One(Running, Ready, Paused, {}, [], 1, 1, 0))
    ensures Goes(One(Running, Ready, Paused, {}, [], 1, 1, 0), Dispatch(1),
                 One(Running, Running, Paused, {}, [], 1, 1, 0))
    ensures Goes(One(Running, Running, Paused, {}, [], 1, 1, 0), PauseReturn(1),
                 One(Running, Running, Outside, {}, [], 1, 1, 0))
  {
    assert {} + {1} == {1} && {1} - {1} == {};
  }

  lemma {:induction false} HandOverSteps()
    ensures Goes(One(Running, Running, Outside, {}, [], 1, 1, 0), Down(1),
                 One(Running, Blocked, Waiting, {}, [1], 1, 1, 0))
    ensures Goes(One(Running, Blocked, Waiting, {}, [1], 1, 1, 0), Up(0), One(Running, Ready, Waiting, {}, [], 2, 1, 1))
    ensures Goes(One(Running, Ready, Waiting, {}, [], 2, 1, 1), Dispatch(1),
                 One(Running, Running, Waiting, {}, [], 2, 1, 1))
    ensures Goes(One(Running, Running, Waiting, {}, [], 2, 1, 1), Return(1),
                 One(Running, Running, Outside, {}, [], 2, 2, 1))
  {
    assert Enqueue([], 1) == [1] && [1][1..] == [];
  }

  lemma {:induction false} SleepSteps()
    ensures Goes(One(Running, Running, Outside, {}, [], 2, 2, 1), Sleep(0),
                 One(Blocked, Running, Outside, {}, [], 2, 2, 1))
    ensures Goes(One(Blocked, Running, Outside, {}, [], 2, 2, 1), Wake(0),
                 One(Ready, Running, Outside, {}, [], 2, 2, 1))
    ensures Goes(One(Ready, Running, Outside, {}, [], 2, 2, 1), Dispatch(0),
                 One(Running, Running, Outside, {}, [], 2, 2, 1))
    ensures Goes(One(Running, Running, Outside, {}, [], 2, 2, 1), Preempt(0),
                 One(Ready, Running, Outside, {}, [], 2, 2, 1))
  {
  }

  /** A run of every step: thread 0 takes the only permit, thread 1 pauses and is woken by its alarm,
      then waits for the permit and gets it when thread 0 gives it back; thread 0 sleeps elsewhere, is
      woken, runs and is preempted. */
  lemma {:induction false} HandOver()
    ensures var s0 := Fresh();
      var run := [Down(0), PauseArm(1), PauseSleep(1), AlarmFires(1), Dispatch(1), PauseReturn(1),
                  Down(1), Up(0), Dispatch(1), Return(1), Sleep(0), Wake(0), Dispatch(0), Preempt(0)];
      && Initial(s0) && Runs(s0, run)
      && After(s0, run) == One(Ready, Running, Outside, {}, [], 2, 2, 1)
  {
    hide Goes, One, Fresh, Runs, After, Initial;
    TakesOnly();
    PauseSteps();
    HandOverSteps();
    SleepSteps();
    var run := [Down(0), PauseArm(1), PauseSleep(1), AlarmFires(1), Dispatch(1), PauseReturn(1),
                Down(1), Up(0), Dispatch(1), Return(1), Sleep(0), Wake(0), Dispatch(0), Preempt(0)];
    var states := [
      Fresh(), One(Running, Running, Outside, {}, [], 1, 1, 0), One(Running, Running, Arming, {1}, [], 1, 1, 0),
      One(Running, Blocked, Paused, {1}, [], 1, 1, 0), One(Running, Ready, Paused, {}, [], 1, 1, 0),
      One(Running, Running, Paused, {}, [], 1, 1, 0), One(Running, Running, Outside, {}, [], 1, 1, 0),
      One(Running, Blocked, Waiting, {}, [1], 1, 1, 0), One(Running, Ready, Waiting, {}, [], 2, 1, 1),
      One(Running, Running, Waiting, {}, [], 2, 1, 1), One(Running, Running, Outside, {}, [], 2, 2, 1),
      One(Blocked, Running, Outside, {}, [], 2, 2, 1), One(Ready, Running, Outside, {}, [], 2, 2, 1),
      One(Running, Running, Outside, {}, [], 2, 2, 1), One(Ready, Running, Outside, {}, [], 2, 2, 1)];
    assert Passes(states, run);
    PassesRun(states, run);
  }

  // ------------------------------------------------------------------------ the sections

  /** The semaphore record with the statuses of the threads using it. */
  class SemaphoreLock {
    var count: Word
    var wq: seq<Tid>
    var status: StatusMap
    ghost var view: State   // everything else, kept for the proof

    ghost predicate Valid(init: nat)
      reads this
    {
      view.count == count && view.wq == wq && view.status == status && Inv(view, init)
    }

    /** `sem_init`. */
    constructor (count: Word, threads: StatusMap)
      ensures Valid(count) && Initial(view) && this.count == count && status == threads
    {
      this.count, wq, status := count, [], threads;
      var s := State(count, [], threads, map t | t in threads :: Outside, {}, 0, 0, 0, [], []);
      InitialInv(s);
      view := s;
    }

    /** `sem_add_to_wq`. */
    method AddToWq(t: Tid)
      modifies this`wq
      ensures wq == Enqueue(old(wq), t)
    {
      for i := 0 to |wq|
        invariant forall k :: 0 <= k < i ==> wq[k] != t
        invariant wq == old(wq)
      {
        if wq[i] == t {
          return;
        }
      }
      wq := wq + [t];
    }

    /** `sem_down` up to its return or its release of `semlock`. */
    method DownSection(t: Tid, ghost init: nat) returns (acquired: bool)
      requires Valid(init) && Enabled(view, Down(t))
      modifies this
      ensures Valid(init) && view == Do(old(view), Down(t))
      ensures acquired <==> old(count) > 0
      ensures acquired ==>
        && count == old(count) - 1 && wq == old(wq) && status == old(status)
        && view.entered == old(view.entered) + 1 && view.pc == old(view.pc)
      ensures !acquired ==>
        && count == 0 && wq == old(wq) + [t] && status == old(status)[t := Blocked]
        && view.entered == old(view.entered) && view.pc == old(view.pc)[t := Waiting]
    {
      StepKeepsInv(view, init, Down(t));
      acquired := count > 0;
      if acquired {
        count := count - 1;
      } else {
        AddToWq(t);
        status := status[t := Blocked];
      }
      view := Do(view, Down(t));
    }

    /** `sem_up`. */
    method UpSection(t: Tid, ghost init: nat)
      requires Valid(init) && Enabled(view, Up(t))
      modifies this
      ensures Valid(init) && view == Do(old(view), Up(t))
      ensures view.entered == old(view.entered) && view.pc == old(view.pc)
      ensures old(wq) == [] ==> count == Add(old(count), 1) && wq == [] && status == old(status)
      ensures old(wq) != [] ==>
        count == old(count) && [old(wq)[0]] + wq == old(wq) && status == old(status)[old(wq)[0] := Ready]
    {
      StepKeepsInv(view, init, Up(t));
      if wq == [] {
        count := Add(count, 1);
      } else {
        var p := wq[0];
        status := WakeUp(status, p);
        wq := wq[1..];
      }
      view := Do(view, Up(t));
    }
  }
}
