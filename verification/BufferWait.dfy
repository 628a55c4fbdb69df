/** Waiting for a busy buffer (src/bbuf.c:187-206 and 235-285), for one buffer that keeps its block.
    A step is one section under the device lock, or a scheduling event. The test for a busy buffer
    and the queueing of the waiter are two sections, and so are freeing the buffer and waking. */
module BufferWait {
  import opened Wrappers
  import opened Threads
  import opened Queues

  /** `Deciding` has seen the buffer busy and is about to call `wait_buffer`; `Asleep` is inside it;
      `Notifying` has freed the buffer and is about to call `notify_buffer`. */
  datatype Pc = Outside | Deciding | Asleep | Holding | Notifying

  datatype State = State(user: Option<Tid>, wq: seq<Tid>, status: StatusMap, pc: map<Tid, Pc>)

  datatype Action =
    | Call(t: Tid)      // get_buffer looks at the buffer for the first time
    | Wait(t: Tid)      // wait_buffer queues the caller and puts it to sleep
    | Retry(t: Tid)     // back from its sleep, get_buffer looks again
    | Release(t: Tid)   // release_buffer frees the buffer
    | Notify(t: Tid)    // notify_buffer wakes the first waiter
    | Dispatch(t: Tid)
    | Preempt(t: Tid)
    | Sleep(t: Tid)     // t blocks elsewhere
    | Wake(t: Tid)      // and is woken there

  predicate Enabled(s: State, a: Action) {
    && a.t in s.status && a.t in s.pc
    && match a
       case Call(t) => s.pc[t] == Outside
       case Wait(t) => s.pc[t] == Deciding
       case Retry(t) => s.pc[t] == Asleep && s.status[t] == Running
       case Release(t) => s.pc[t] == Holding
       case Notify(t) => s.pc[t] == Notifying
       case Dispatch(t) => s.status[t] == Ready
       case Preempt(t) => s.status[t] == Running
       case Sleep(t) => s.status[t] == Running && s.pc[t] != Asleep
       case Wake(t) => s.pc[t] != Asleep
  }

  /** Reserve the buffer, or find it busy. */
  function Look(s: State, t: Tid): State {
    if s.user == None then s.(user := Some(t), pc := s.pc[t := Holding]) else s.(pc := s.pc[t := Deciding])
  }

  function Do(s: State, a: Action): State
    requires Enabled(s, a)
  {
    match a
    case Call(t) => Look(s, t)
    case Wait(t) => s.(wq := s.wq + [t], status := s.status[t := Blocked], pc := s.pc[t := Asleep])
    case Retry(t) => Look(s, t)
    case Release(t) => s.(user := None, pc := s.pc[t := Notifying])
    case Notify(t) =>
      if s.wq == [] then s.(pc := s.pc[t := Outside])
      else s.(wq := s.wq[1..], status := WakeUp(s.status, s.wq[0]), pc := s.pc[t := Outside])
    case Dispatch(t) => s.(status := s.status[t := Running])
    case Preempt(t) => s.(status := s.status[t := Ready])
    case Sleep(t) => s.(status := s.status[t := Blocked])
    case Wake(t) => s.(status := WakeUp(s.status, t))
  }

  ghost predicate Initial(s: State) {
    s.user == None && s.wq == [] && s.status.Keys == s.pc.Keys && forall t :: t in s.pc ==> s.pc[t] == Outside
  }

  ghost predicate Runs(s: State, actions: seq<Action>)
    decreases |actions|
  {
    actions == [] || (Enabled(s, actions[0]) && Runs(Do(s, actions[0]), actions[1..]))
  }

  function After(s: State, actions: seq<Action>): State
    requires Runs(s, actions)
    decreases |actions|
  {
    if actions == [] then s else After(Do(s, actions[0]), actions[1..])
  }

  /** The queue holds exactly the blocked threads in `wait_buffer`, and the user is the holder. */
  ghost predicate Inv(s: State) {
    && s.status.Keys == s.pc.Keys && NoDup(s.wq)
    && (forall t :: t in s.wq ==> t in s.pc && s.pc[t] == Asleep)
    && (forall t :: t in s.pc && s.pc[t] == Asleep ==> t in s.status && (t in s.wq <==> s.status[t] == Blocked))
    && (forall t :: t in s.pc ==> (s.pc[t] == Holding <==> s.user == Some(t)))
    && (s.user.Some? ==> s.user.value in s.pc)
  }

  lemma {:induction false} WaitKeepsInv(s: State, t: Tid)
    requires Inv(s) && Enabled(s, Wait(t))
    ensures Inv(Do(s, Wait(t)))
  {
    assert t !in s.wq;
    PushNoDup(s.wq, t);
  }

  lemma {:induction false} NotifyKeepsInv(s: State, t: Tid)
    requires Inv(s) && Enabled(s, Notify(t))
    ensures Inv(Do(s, Notify(t)))
  {
    if s.wq != [] {
      assert s.wq[0] in s.wq && s.wq == [s.wq[0]] + s.wq[1..];
      assert forall u :: u in s.wq <==> u == s.wq[0] || u in s.wq[1..];
      assert s.wq[0] !in s.wq[1..];
    }
  }

  lemma {:induction false} OtherKeepsInv(s: State, a: Action)
    requires Inv(s) && Enabled(s, a) && !a.Wait? && !a.Notify?
    ensures Inv(Do(s, a))
  {
  }

  lemma {:induction false} StepKeepsInv(s: State, a: Action)
    requires Inv(s) && Enabled(s, a)
    ensures Inv(Do(s, a))
  {
    hide Inv, Enabled, Do;
    if a.Wait? {
      WaitKeepsInv(s, a.t);
    } else if a.Notify? {
      NotifyKeepsInv(s, a.t);
    } else {
      OtherKeepsInv(s, a);
    }
  }

  lemma {:induction false} RunKeepsInv(s: State, actions: seq<Action>)
    requires Inv(s) && Runs(s, actions)
    ensures Inv(After(s, actions))
    decreases |actions|
  {
    if actions != [] {
      StepKeepsInv(s, actions[0]);
      RunKeepsInv(Do(s, actions[0]), actions[1..]);
    }
  }

  /** In every interleaving at most one thread holds the buffer. */
  lemma {:induction false} OneHolder(s0: State, actions: seq<Action>, t: Tid, u: Tid)
    requires Initial(s0) && Runs(s0, actions)
    ensures var s := After(s0, actions);
      t in s.pc && u in s.pc && s.pc[t] == Holding && s.pc[u] == Holding ==> t == u
  {
    RunKeepsInv(s0, actions);
  }

  // -------------------------------------------------------------------------- lost wake-ups

  /** Thread `u` will come by the queue without a further call: it holds the buffer, is about to wake
      the first waiter, or has been woken and is about to look again. */
  predicate OnTheWay(s: State, u: Tid) {
    u in s.pc && (s.pc[u] == Holding || s.pc[u] == Notifying || (s.pc[u] == Asleep && u !in s.wq))
  }

  /** While anyone waits, somebody is on the way. */
  ghost predicate Attended(s: State) { s.wq != [] ==> exists u :: OnTheWay(s, u) }

  /** The step queues a waiter although the buffer has become free meanwhile and nobody will come. */
  ghost predicate Abandons(s: State, a: Action) { a.Wait? && forall u :: !OnTheWay(s, u) }

  lemma {:induction false} StaysOnTheWay(s: State, a: Action, u: Tid)
    requires Inv(s) && Enabled(s, a) && OnTheWay(s, u) && a != Notify(u)
    ensures exists v :: OnTheWay(Do(s, a), v)
  {
    var s' := Do(s, a);
    if a.Notify? && s.wq != [] {
      assert s.wq[0] in s.wq && s.wq == [s.wq[0]] + s.wq[1..] && s.wq[0] !in s.wq[1..];
      assert OnTheWay(s', s.wq[0]);
    } else if a == Retry(u) && s.user.Some? {
      assert OnTheWay(s', s.user.value);
    } else {
      assert OnTheWay(s', u);
    }
  }

  lemma {:induction false} StillNobody(s: State, a: Action, u: Tid)
    requires Inv(s) && Enabled(s, a) && !a.Call? && !OnTheWay(s, a.t) && !OnTheWay(s, u)
    ensures !OnTheWay(Do(s, a), u) && s.wq <= Do(s, a).wq && forall t :: t in s.wq ==> t in Do(s, a).wq
  {
    if a.Wait? { assert (s.wq + [a.t])[|s.wq|] == a.t; }
  }

  /** Waiters are attended to as long as no step abandons one, exactly. */
  lemma {:induction false} AttendedUntilAbandoned(s: State, a: Action)
    requires Inv(s) && Attended(s) && Enabled(s, a)
    ensures Attended(Do(s, a)) <==> !Abandons(s, a)
  {
    var s' := Do(s, a);
    if Abandons(s, a) {
      forall u ensures !OnTheWay(s', u) { StillNobody(s, a, u); }
    } else if s'.wq != [] {
      if a.Notify? {
        assert s.wq[0] in s.wq && s.wq == [s.wq[0]] + s.wq[1..] && s.wq[0] !in s.wq[1..];
        assert OnTheWay(s', s.wq[0]);
      } else {
        var u: Tid :| OnTheWay(s, u);
        StaysOnTheWay(s, a, u);
      }
    }
  }

  predicate NoCalls(actions: seq<Action>) { forall i :: 0 <= i < |actions| ==> !actions[i].Call? }

  /** With nobody on the way, nobody comes and every waiter stays queued, until there is a new call. */
  lemma {:induction false} NobodyComes(s: State, actions: seq<Action>, t: Tid)
    requires Inv(s) && Runs(s, actions) && NoCalls(actions) && t in s.wq && forall u :: !OnTheWay(s, u)
    ensures var s' := After(s, actions); t in s'.wq && t in s'.status && s'.status[t] == Blocked
    decreases |actions|
  {
    if actions != [] {
      var a := actions[0];
      StepKeepsInv(s, a);
      StillNobody(s, a, a.t);
      forall u ensures !OnTheWay(Do(s, a), u) { StillNobody(s, a, u); }
      assert forall i :: 0 <= i < |actions[1..]| ==> actions[1..][i] == actions[i + 1];
      hide Inv, OnTheWay, Enabled, Do;
      NobodyComes(Do(s, a), actions[1..], t);
    }
  }

  /** Thread `t` can still be woken without a further call of `get_buffer`. */
  ghost predicate CanWake(s: State, t: Tid) {
    exists actions :: Runs(s, actions) && NoCalls(actions) &&
      t in After(s, actions).status && After(s, actions).status[t] != Blocked
  }

  lemma {:induction false} FirstStep(s: State, a: Action, t: Tid)
    requires Enabled(s, a) && !a.Call? && CanWake(Do(s, a), t)
    ensures CanWake(s, t)
  {
    var rest :| Runs(Do(s, a), rest) && NoCalls(rest) &&
      t in After(Do(s, a), rest).status && After(Do(s, a), rest).status[t] != Blocked;
    var actions := [a] + rest;
    assert actions[0] == a && actions[1..] == rest;
    assert Runs(s, actions) && NoCalls(actions);
  }

  lemma {:induction false} NotifierWakes(s: State, u: Tid)
    requires Inv(s) && s.wq != [] && u in s.pc && s.pc[u] == Notifying
    ensures CanWake(s, s.wq[0])
  {
    var t, s' := s.wq[0], Do(s, Notify(u));
    assert t in s.wq && s'.status[t] != Blocked;
    assert Runs(s', []) && NoCalls([]) && After(s', []) == s';
    FirstStep(s, Notify(u), t);
  }

  lemma {:induction false} HolderWakes(s: State, u: Tid)
    requires Inv(s) && s.wq != [] && u in s.pc && s.pc[u] == Holding
    ensures CanWake(s, s.wq[0])
  {
    StepKeepsInv(s, Release(u));
    NotifierWakes(Do(s, Release(u)), u);
    FirstStep(s, Release(u), s.wq[0]);
  }

  lemma {:induction false} RunningWakes(s: State, u: Tid)
    requires Inv(s) && s.wq != [] && u in s.pc && u in s.status && s.pc[u] == Asleep && s.status[u] == Running
    ensures CanWake(s, s.wq[0])
  {
    var s' := Do(s, Retry(u));
    StepKeepsInv(s, Retry(u));
    HolderWakes(s', if s.user.Some? then s.user.value else u);
    FirstStep(s, Retry(u), s.wq[0]);
  }

  lemma {:induction false} WokenWakes(s: State, u: Tid)
    requires Inv(s) && s.wq != [] && u in s.pc && s.pc[u] == Asleep && u !in s.wq
    ensures CanWake(s, s.wq[0])
  {
    if s.status[u] == Running {
      RunningWakes(s, u);
    } else {
      StepKeepsInv(s, Dispatch(u));
      RunningWakes(Do(s, Dispatch(u)), u);
      FirstStep(s, Dispatch(u), s.wq[0]);
    }
  }

  /** Main result: the first waiter can still be woken without a further call exactly when somebody is
      on the way. */
  lemma {:induction false} WakeableIffAttended(s: State)
    requires Inv(s) && s.wq != []
    ensures CanWake(s, s.wq[0]) <==> Attended(s)
  {
    var t := s.wq[0];
    if Attended(s) {
      var u: Tid :| OnTheWay(s, u);
      if s.pc[u] == Holding {
        HolderWakes(s, u);
      } else if s.pc[u] == Notifying {
        NotifierWakes(s, u);
      } else {
        WokenWakes(s, u);
      }
    } else if CanWake(s, t) {
      var actions :| Runs(s, actions) && NoCalls(actions) &&
        t in After(s, actions).status && After(s, actions).status[t] != Blocked;
      NobodyComes(s, actions, t);
    }
  }

  /** No step of the run abandons a waiter. */
  ghost predicate NoneAbandoned(s: State, actions: seq<Action>)
    requires Runs(s, actions)
    decreases |actions|
  {
    actions == [] || (!Abandons(s, actions[0]) && NoneAbandoned(Do(s, actions[0]), actions[1..]))
  }

  /** So in a run without such a step the first waiter can always be woken. */
  lemma {:induction false} NeverStranded(s: State, actions: seq<Action>)
    requires Inv(s) && Attended(s) && Runs(s, actions) && NoneAbandoned(s, actions)
    ensures var s' := After(s, actions); Inv(s') && Attended(s') && (s'.wq != [] ==> CanWake(s', s'.wq[0]))
    decreases |actions|
  {
    if actions == [] {
      if s.wq != [] { WakeableIffAttended(s); }
    } else {
      StepKeepsInv(s, actions[0]);
      AttendedUntilAbandoned(s, actions[0]);
      NeverStranded(Do(s, actions[0]), actions[1..]);
    }
  }

  // -------------------------------------------------------------------------- order of waking

  /** The threads that the run queues, in order, and those that it wakes. */
  function Queued(s: State, actions: seq<Action>): seq<Tid>
    requires Runs(s, actions)
    decreases |actions|
  {
    if actions == [] then []
    else (if actions[0].Wait? then [actions[0].t] else []) + Queued(Do(s, actions[0]), actions[1..])
  }

  function Woken(s: State, actions: seq<Action>): seq<Tid>
    requires Runs(s, actions)
    decreases |actions|
  {
    if actions == [] then []
    else (if actions[0].Notify? && s.wq != [] then [s.wq[0]] else []) + Woken(Do(s, actions[0]), actions[1..])
  }

  /** First come, first served, without loss or repetition: those queued are those woken, in order,
      and those still queued. */
  lemma {:induction false} WokenInOrder(s: State, actions: seq<Action>)
    requires Runs(s, actions)
    ensures s.wq + Queued(s, actions) == Woken(s, actions) + After(s, actions).wq
    decreases |actions|
  {
    if actions == [] {
      EmptyFirst(s.wq);
      assert s.wq + [] == s.wq;
    } else {
      var a, s1, rest := actions[0], Do(s, actions[0]), actions[1..];
      var q, w := if a.Wait? then [a.t] else [], if a.Notify? && s.wq != [] then [s.wq[0]] else [];
      assert s.wq + q == w + s1.wq;
      hide Enabled, Do;
      WokenInOrder(s1, rest);
      Regroup(s.wq, q, Queued(s1, rest));
      Regroup(w, s1.wq, Queued(s1, rest));
      Regroup(w, Woken(s1, rest), After(s1, rest).wq);
    }
  }

  // ----------------------------------------------------------------------------- it happens

  predicate Goes(s: State, a: Action, s': State) { Enabled(s, a) && Do(s, a) == s' }

  /** Threads 0 and 1 around one buffer, each with its status and place. */
  datatype At = At(status: Status, pc: Pc)

  function Two(user: Option<Tid>, wq: seq<Tid>, t0: At, t1: At): State {
    State(user, wq, map[0 := t0.status, 1 := t1.status], map[0 := t0.pc, 1 := t1.pc])
  }

  lemma {:induction false} LosingSteps()
    ensures Goes(Two(None, [], At(Running, Outside), At(Running, Outside)), Call(0),
                 Two(Some(0), [], At(Running, Holding), At(Running, Outside)))
    ensures Goes(Two(Some(0), [], At(Running, Holding), At(Running, Outside)), Call(1),
                 Two(Some(0), [], At(Running, Holding), At(Running, Deciding)))
    ensures Goes(Two(Some(0), [], At(Running, Holding), At(Running, Deciding)), Release(0),
                 Two(None, [], At(Running, Notifying), At(Running, Deciding)))
    ensures Goes(Two(None, [], At(Running, Notifying), At(Running, Deciding)), Notify(0),
                 Two(None, [], At(Running, Outside), At(Running, Deciding)))
    ensures Goes(Two(None, [], At(Running, Outside), At(Running, Deciding)), Wait(1),
                 Two(None, [1], At(Running, Outside), At(Blocked, Asleep)))
  {
  }

  lemma {:induction false} Stranded()
    ensures Initial(Two(None, [], At(Running, Outside), At(Running, Outside)))
    ensures !CanWake(Two(None, [1], At(Running, Outside), At(Blocked, Asleep)), 1)
  {
    var s := Two(None, [1], At(Running, Outside), At(Blocked, Asleep));
    assert Inv(s) && !Attended(s);
    WakeableIffAttended(s);
  }

  /** A run through the given states. */
  ghost predicate Passes(states: seq<State>, actions: seq<Action>) {
    && |states| == |actions| + 1
    && forall i :: 0 <= i < |actions| ==> Goes(states[i], actions[i], states[i + 1])
  }

  lemma {:induction false} PassesRun(states: seq<State>, actions: seq<Action>)
    requires Passes(states, actions)
    ensures Runs(states[0], actions) && After(states[0], actions) == states[|actions|]
    decreases |actions|
  {
    hide Enabled, Do;
    if actions != [] {
      assert Passes(states[1..], actions[1..]);
      PassesRun(states[1..], actions[1..]);
    }
  }

  /** A wake-up lost: thread 1 sees the buffer busy; thread 0 frees it and finds nobody to wake; thread
      1 goes to sleep on a free buffer, and nothing but a new call can wake it. */
  lemma {:induction false} WakeUpLost()
    ensures var s0 := Two(None, [], At(Running, Outside), At(Running, Outside));
      var run := [Call(0), Call(1), Release(0), Notify(0), Wait(1)];
      && Initial(s0) && Runs(s0, run)
      && After(s0, run) == Two(None, [1], At(Running, Outside), At(Blocked, Asleep)) && !CanWake(After(s0, run), 1)
  {
    Stranded();
    LosingSteps();
    hide CanWake, Initial, Goes, Two, Runs, After;
    var states := [
      Two(None, [], At(Running, Outside), At(Running, Outside)),
      Two(Some(0), [], At(Running, Holding), At(Running, Outside)),
      Two(Some(0), [], At(Running, Holding), At(Running, Deciding)),
      Two(None, [], At(Running, Notifying), At(Running, Deciding)),
      Two(None, [], At(Running, Outside), At(Running, Deciding)),
      Two(None, [1], At(Running, Outside), At(Blocked, Asleep))];
    var run := [Call(0), Call(1), Release(0), Notify(0), Wait(1)];
    assert Passes(states, run);
    PassesRun(states, run);
  }

  lemma {:induction false} SleepingSteps()
    ensures Goes(Two(Some(0), [], At(Running, Holding), At(Running, Deciding)), Wait(1),
                 Two(Some(0), [1], At(Running, Holding), At(Blocked, Asleep)))
    ensures Goes(Two(Some(0), [1], At(Running, Holding), At(Blocked, Asleep)), Sleep(0),
                 Two(Some(0), [1], At(Blocked, Holding), At(Blocked, Asleep)))
    ensures Goes(Two(Some(0), [1], At(Blocked, Holding), At(Blocked, Asleep)), Release(0),
                 Two(None, [1], At(Blocked, Notifying), At(Blocked, Asleep)))
    ensures Goes(Two(None, [1], At(Blocked, Notifying), At(Blocked, Asleep)), Notify(0),
                 Two(None, [], At(Blocked, Outside), At(Ready, Asleep)))
  {
    assert [1][1..] == [] && [] + [1] == [1];
  }

  lemma {:induction false} WakingSteps()
    ensures Goes(Two(None, [], At(Blocked, Outside), At(Ready, Asleep)), Wake(0),
                 Two(None, [], At(Ready, Outside), At(Ready, Asleep)))
    ensures Goes(Two(None, [], At(Ready, Outside), At(Ready, Asleep)), Dispatch(0),
                 Two(None, [], At(Running, Outside), At(Ready, Asleep)))
    ensures Goes(Two(None, [], At(Running, Outside), At(Ready, Asleep)), Preempt(0),
                 Two(None, [], At(Ready, Outside), At(Ready, Asleep)))
    ensures Goes(Two(None, [], At(Ready, Outside), At(Ready, Asleep)), Dispatch(1),
                 Two(None, [], At(Ready, Outside), At(Running, Asleep)))
    ensures Goes(Two(None, [], At(Ready, Outside), At(Running, Asleep)), Retry(1),
                 Two(Some(1), [], At(Ready, Outside), At(Running, Holding)))
  {
  }

  /** The same with the waiter queued in time: it is woken, looks again and gets the buffer. */
  lemma {:induction false} WakeUpKept()
    ensures var s0 := Two(Some(0), [], At(Running, Holding), At(Running, Deciding));
      var run := [Wait(1), Sleep(0), Release(0), Notify(0), Wake(0), Dispatch(0), Preempt(0), Dispatch(1), Retry(1)];
      Runs(s0, run) && After(s0, run) == Two(Some(1), [], At(Ready, Outside), At(Running, Holding))
  {
    SleepingSteps();
    WakingSteps();
    hide Goes, Two, Runs, After;
    var states := [
      Two(Some(0), [], At(Running, Holding), At(Running, Deciding)),
      Two(Some(0), [1], At(Running, Holding), At(Blocked, Asleep)),
      Two(Some(0), [1], At(Blocked, Holding), At(Blocked, Asleep)),
      Two(None, [1], At(Blocked, Notifying), At(Blocked, Asleep)),
      Two(None, [], At(Blocked, Outside), At(Ready, Asleep)),
      Two(None, [], At(Ready, Outside), At(Ready, Asleep)),
      Two(None, [], At(Running, Outside), At(Ready, Asleep)),
      Two(None, [], At(Ready, Outside), At(Ready, Asleep)),
      Two(None, [], At(Ready, Outside), At(Running, Asleep)),
      Two(Some(1), [], At(Ready, Outside), At(Running, Holding))];
    var run := [Wait(1), Sleep(0), Release(0), Notify(0), Wake(0), Dispatch(0), Preempt(0), Dispatch(1), Retry(1)];
    assert Passes(states, run);
    PassesRun(states, run);
  }
}
