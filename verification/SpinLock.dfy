/** The spinlock of src/spinlock.c at the granularity of its memory accesses. It is what makes a
    section of the mutex or the semaphore one step. */
module SpinLock {
  import opened Wrappers

  type Cpu = nat

  /** `Won` follows a successful exchange and precedes the store of `owner_cpu`; `Leaving`
      follows the clearing of `owner_cpu` and precedes the releasing exchange. `WonByTry` is the
      critical section of `spin_trylock`, which does not record an owner. */
  datatype Pc = Idle | Spinning | Won | Inside | WonByTry | Leaving

  datatype State = State(word: bool, owner: Option<Cpu>, pc: map<Cpu, Pc>)

  datatype Action =
    | Begin(c: Cpu)        // spin_lock is called
    | Exchange(c: Cpu)     // one xchg of the acquire loop
    | RecordOwner(c: Cpu)  // owner_cpu = this CPU, after the ASSERT
    | TryLock(c: Cpu)      // the single xchg of spin_trylock
    | ClearOwner(c: Cpu)   // first store of spin_release
    | Release(c: Cpu)      // the releasing xchg

  predicate Enabled(s: State, a: Action) {
    && a.c in s.pc
    && match a
       case Begin(c) => s.pc[c] == Idle
       case Exchange(c) => s.pc[c] == Spinning
       case RecordOwner(c) => s.pc[c] == Won
       case TryLock(c) => s.pc[c] == Idle
       case ClearOwner(c) => s.pc[c] == Inside || s.pc[c] == WonByTry
       case Release(c) => s.pc[c] == Leaving
  }

  function Do(s: State, a: Action): State
    requires Enabled(s, a)
  {
    match a
    case Begin(c) => s.(pc := s.pc[c := Spinning])
    case Exchange(c) => if s.word then s else s.(word := true, pc := s.pc[c := Won])
    case RecordOwner(c) => s.(owner := Some(c), pc := s.pc[c := Inside])
    case TryLock(c) => if s.word then s else s.(word := true, pc := s.pc[c := WonByTry])
    case ClearOwner(c) => s.(owner := None, pc := s.pc[c := Leaving])
    case Release(c) => s.(word := false, pc := s.pc[c := Idle])
  }

  predicate Critical(s: State, c: Cpu) {
    c in s.pc && s.pc[c] != Idle && s.pc[c] != Spinning
  }

  ghost predicate Inv(s: State) {
    && (forall c, d :: Critical(s, c) && Critical(s, d) ==> c == d)
    && (s.word <==> exists c :: Critical(s, c))
    && (s.owner.Some? ==> s.owner.value in s.pc && s.pc[s.owner.value] == Inside)
    && (forall c :: c in s.pc && s.pc[c] == Inside ==> s.owner == Some(c))
  }

  ghost predicate Initial(s: State) {
    !s.word && s.owner == None && forall c :: c in s.pc ==> s.pc[c] == Idle
  }

  ghost predicate Runs(s: State, actions: seq<Action>)
    decreases |actions|
  {
    actions == [] || (Enabled(s, actions[0]) && Runs(Do(s, actions[0]), actions[1..]))
  }

  function After(s: State, actions: seq<Action>): State
    requires Runs(s, actions)
    decreases |actions|
  {
    if actions == [] then s else After(Do(s, actions[0]), actions[1..])
  }

  lemma {:induction false} StepKeepsInv(s: State, a: Action)
    requires Inv(s) && Enabled(s, a)
    ensures Inv(Do(s, a))
  {
    var s', c := Do(s, a), a.c;
    assert forall d :: d != c ==> (Critical(s', d) <==> Critical(s, d));
    if Critical(s, c) {
      assert forall d :: Critical(s, d) ==> d == c;
      assert forall d :: d in s.pc && s.pc[d] == Inside ==> Critical(s, d);
      assert !a.Release? ==> Critical(s', c);
    } else if s.word {
      var d :| Critical(s, d);
      assert Critical(s', d);
    } else {
      assert s'.word ==> Critical(s', c);
    }
  }

  lemma {:induction false} RunKeepsInv(s: State, actions: seq<Action>)
    requires Inv(s) && Runs(s, actions)
    ensures Inv(After(s, actions))
    decreases |actions|
  {
    if actions != [] {
      StepKeepsInv(s, actions[0]);
      RunKeepsInv(Do(s, actions[0]), actions[1..]);
    }
  }

  /** Main result: in every interleaving at most one CPU is between acquiring and releasing, and
      the ASSERT that a winner finds no recorded owner never fires. */
  lemma {:induction false} OneCpuInside(s0: State, actions: seq<Action>, c: Cpu, d: Cpu)
    requires Initial(s0) && Runs(s0, actions)
    ensures var s := After(s0, actions);
      && (Critical(s, c) && Critical(s, d) ==> c == d)
      && (Enabled(s, RecordOwner(c)) ==> s.owner == None)
      && (Critical(s, c) ==> s.word)
  {
    RunKeepsInv(s0, actions);
    var s := After(s0, actions);
    assert s.owner.Some? ==> Critical(s, s.owner.value);
    assert Enabled(s, RecordOwner(c)) ==> Critical(s, c);
  }

  // --------------------------------------------------------------------- calls and returns

  /** The exchange finds the word clear: `spin_lock` returns, or `spin_trylock` answers 1. */
  predicate Wins(s: State, a: Action) { (a.Exchange? || a.TryLock?) && !s.word }

  /** The CPUs that have won the word and not given it back, given those at the start. */
  ghost function Winners(s: State, inside: set<Cpu>, actions: seq<Action>): set<Cpu>
    requires Runs(s, actions)
    decreases |actions|
  {
    if actions == [] then inside
    else
      var a := actions[0];
      var now := if Wins(s, a) then inside + {a.c} else if a.Release? then inside - {a.c} else inside;
      Winners(Do(s, a), now, actions[1..])
  }

  ghost function CriticalSet(s: State): set<Cpu> { set c | c in s.pc && Critical(s, c) }

  lemma {:induction false} StepWinners(s: State, a: Action)
    requires Enabled(s, a)
    ensures CriticalSet(Do(s, a)) ==
      if Wins(s, a) then CriticalSet(s) + {a.c} else if a.Release? then CriticalSet(s) - {a.c} else CriticalSet(s)
  {
  }

  lemma {:induction false} RunWinners(s: State, actions: seq<Action>)
    requires Runs(s, actions)
    ensures Winners(s, CriticalSet(s), actions) == CriticalSet(After(s, actions))
    decreases |actions|
  {
    if actions != [] {
      StepWinners(s, actions[0]);
      hide CriticalSet, Enabled, Do, Wins;
      RunWinners(Do(s, actions[0]), actions[1..]);
    }
  }

  /** Exclusion by what callers see: at most one CPU has won the word and not given it back, and the
      word is set exactly while there is one. */
  lemma {:induction false} AtMostOneWinner(s0: State, actions: seq<Action>)
    requires Initial(s0) && Runs(s0, actions)
    ensures var s, inside := After(s0, actions), Winners(s0, {}, actions);
      |inside| <= 1 && (s.word <==> inside != {})
  {
    assert CriticalSet(s0) == {};
    RunWinners(s0, actions);
    RunKeepsInv(s0, actions);
    var s := After(s0, actions);
    hide Winners, Runs, After;
    if s.word {
      var c: Cpu :| Critical(s, c);
      assert c in CriticalSet(s);
      assert CriticalSet(s) == {c};
    } else {
      assert CriticalSet(s) == {};
    }
  }

  // ---------------------------------------------------------------------------- it happens

  predicate Goes(s: State, a: Action, s': State) { Enabled(s, a) && Do(s, a) == s' }

  /** A run through the given states. */
  ghost predicate Passes(states: seq<State>, actions: seq<Action>) {
    && |states| == |actions| + 1
    && forall i :: 0 <= i < |actions| ==> Goes(states[i], actions[i], states[i + 1])
  }

  lemma {:induction false} PassesRun(states: seq<State>, actions: seq<Action>)
    requires Passes(states, actions)
    ensures Runs(states[0], actions) && After(states[0], actions) == states[|actions|]
    decreases |actions|
  {
    hide Enabled, Do;
    if actions != [] {
      assert Passes(states[1..], actions[1..]);
      PassesRun(states[1..], actions[1..]);
    }
  }

  function Two(word: bool, owner: Option<Cpu>, pc0: Pc, pc1: Pc): State { State(word, owner, map[0 := pc0, 1 := pc1]) }

  lemma {:induction false} TakeSteps()
    ensures Initial(Two(false, None, Idle, Idle))
    ensures Goes(Two(false, None, Idle, Idle), Begin(0), Two(false, None, Spinning, Idle))
    ensures Goes(Two(false, None, Spinning, Idle), Exchange(0), Two(true, None, Won, Idle))
    ensures Goes(Two(true, None, Won, Idle), RecordOwner(0), Two(true, Some(0), Inside, Idle))
    ensures Goes(Two(true, Some(0), Inside, Idle), TryLock(1), Two(true, Some(0), Inside, Idle))
    ensures Goes(Two(true, Some(0), Inside, Idle), Begin(1), Two(true, Some(0), Inside, Spinning))
    ensures Goes(Two(true, Some(0), Inside, Spinning), Exchange(1), Two(true, Some(0), Inside, Spinning))
  {
  }

  lemma {:induction false} GiveSteps()
    ensures Goes(Two(true, Some(0), Inside, Spinning), ClearOwner(0), Two(true, None, Leaving, Spinning))
    ensures Goes(Two(true, None, Leaving, Spinning), Release(0), Two(false, None, Idle, Spinning))
    ensures Goes(Two(false, None, Idle, Spinning), TryLock(0), Two(true, None, WonByTry, Spinning))
    ensures Goes(Two(true, None, WonByTry, Spinning), ClearOwner(0), Two(true, None, Leaving, Spinning))
    ensures Goes(Two(false, None, Idle, Spinning), Exchange(1), Two(true, None, Idle, Won))
  {
  }

  /** CPU 0 takes the lock, CPU 1 fails to try it and spins; CPU 0 gives it back, tries and wins it
      again, gives it back, and CPU 1 wins. */
  lemma {:induction false} Contention()
    ensures var s0 := Two(false, None, Idle, Idle);
      var run := [Begin(0), Exchange(0), RecordOwner(0), TryLock(1), Begin(1), Exchange(1), ClearOwner(0), Release(0),
                  TryLock(0), ClearOwner(0), Release(0), Exchange(1)];
      Initial(s0) && Runs(s0, run) && After(s0, run) == Two(true, None, Idle, Won)
  {
    hide Goes, Two, Runs, After, Initial;
    TakeSteps();
    GiveSteps();
    var run := [Begin(0), Exchange(0), RecordOwner(0), TryLock(1), Begin(1), Exchange(1), ClearOwner(0), Release(0),
                TryLock(0), ClearOwner(0), Release(0), Exchange(1)];
    var states := [
      Two(false, None, Idle, Idle), Two(false, None, Spinning, Idle), Two(true, None, Won, Idle),
      Two(true, Some(0), Inside, Idle), Two(true, Some(0), Inside, Idle), Two(true, Some(0), Inside, Spinning),
      Two(true, Some(0), Inside, Spinning), Two(true, None, Leaving, Spinning), Two(false, None, Idle, Spinning),
      Two(true, None, WonByTry, Spinning), Two(true, None, Leaving, Spinning), Two(false, None, Idle, Spinning),
      Two(true, None, Idle, Won)];
    assert Passes(states, run);
    PassesRun(states, run);
  }
}
