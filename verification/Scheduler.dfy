/** The round-robin scheduler of one CPU (src/sched.c:59-146) and the alarm sweep of the timer
    interrupt (src/sched.c:394-411). */
module Scheduler {
  import opened Wrappers
  import opened Division
  import opened Bits
  import opened Threads
  import opened Queues
  import opened Timer

  /** The entry after `j` in a ring of `n`. */
  function Next(n: nat, j: nat): nat { if j + 1 == n then 0 else j + 1 }

  /** Index `k` places after `i`. */
  function Ahead(n: nat, i: nat, k: nat): (j: nat)
    requires i < n
    ensures j < n
  {
    if k == 0 then i else Next(n, Ahead(n, i, k - 1))
  }

  lemma {:induction false} AheadIsRemainder(n: nat, i: nat, k: nat)
    requires i < n
    ensures Ahead(n, i, k) == (i + k) % n
  {
    if k > 0 {
      AheadIsRemainder(n, i, k - 1);
      NextRemainder(i + k - 1, n);
    } else {
      SameQuotient(0, i, i / n, i % n, n);
    }
  }

  /** The search loop probes one thread after the other, and interrupts wake threads meanwhile:
      `views[k - 1]` holds the statuses when probe `k` is made. */
  ghost predicate ReadyAt(q: seq<Tid>, views: seq<StatusMap>, i: nat, k: nat)
    requires i < |q| && 1 <= k <= |views|
  {
    var t := q[Ahead(|q|, i, k)];
    t in views[k - 1] && views[k - 1][t] == Ready
  }

  /** None of the first `k` probes finds its thread ready. */
  ghost predicate NoneReady(q: seq<Tid>, views: seq<StatusMap>, i: nat, k: nat)
    requires i < |q| && k <= |views|
  {
    forall j :: 1 <= j <= k ==> !ReadyAt(q, views, i, j)
  }

  /** From index `i`, probe `k` is the first to find its thread ready. */
  ghost predicate Settles(q: seq<Tid>, views: seq<StatusMap>, i: nat, k: nat) {
    i < |q| && 1 <= k <= |views| && ReadyAt(q, views, i, k) && NoneReady(q, views, i, k - 1)
  }

  /** One call of `schedule` moves the running position from `i` to `j`. */
  ghost predicate Picks(q: seq<Tid>, views: seq<StatusMap>, i: nat, j: nat) {
    exists k: nat :: Settles(q, views, i, k) && j == Ahead(|q|, i, k)
  }

  /** The pick is unique: round robin is deterministic. */
  lemma {:induction false} PickIsUnique(q: seq<Tid>, views: seq<StatusMap>, i: nat, j1: nat, j2: nat)
    requires Picks(q, views, i, j1) && Picks(q, views, i, j2)
    ensures j1 == j2
  {
    hide Ahead, ReadyAt;
    var k1: nat :| Settles(q, views, i, k1) && j1 == Ahead(|q|, i, k1);
    var k2: nat :| Settles(q, views, i, k2) && j2 == Ahead(|q|, i, k2);
  }

  /** How many places after `i` the entry `p` is met, in 1..n. */
  function Distance(n: nat, i: nat, p: nat): nat
    requires i < n && p < n
  {
    if p > i then p - i else p - i + n
  }

  /** Thread `t` is ready at every probe. */
  ghost predicate AlwaysReady(views: seq<StatusMap>, t: Tid) {
    forall m :: 0 <= m < |views| ==> t in views[m] && views[m][t] == Ready
  }

  lemma {:induction false} AheadWithin(n: nat, i: nat, k: nat)
    requires i < n && k <= n
    ensures Ahead(n, i, k) == if i + k < n then i + k else i + k - n
  {
    if k > 0 { AheadWithin(n, i, k - 1); }
  }

  lemma {:induction false} Meets(n: nat, i: nat, p: nat, k: nat)
    requires i < n && p < n && 1 <= k <= Distance(n, i, p)
    ensures Ahead(n, i, Distance(n, i, p)) == p && Distance(n, i, p) <= n
    ensures k == Distance(n, i, p) || Distance(n, Ahead(n, i, k), p) == Distance(n, i, p) - k
  {
    hide Ahead;
    AheadWithin(n, i, k);
    AheadWithin(n, i, Distance(n, i, p));
  }

  lemma {:induction false} DistanceBounds(n: nat, i: nat, p: nat)
    requires i < n && p < n
    ensures 1 <= Distance(n, i, p) <= n
  {
  }

  /** A search that settles, while `p` is ready throughout, stops at `p` or strictly nearer to it. */
  lemma {:induction false} PickApproaches(q: seq<Tid>, views: seq<StatusMap>, i: nat, j: nat, p: nat)
    requires Picks(q, views, i, j) && p < |q| && AlwaysReady(views, q[p])
    ensures j < |q| && (j == p || Distance(|q|, j, p) < Distance(|q|, i, p))
  {
    hide Ahead, Distance;
    var k: nat :| Settles(q, views, i, k) && j == Ahead(|q|, i, k);
    var d := Distance(|q|, i, p);
    DistanceBounds(|q|, i, p);
    Meets(|q|, i, p, 1);
    assert d < k ==> !ReadyAt(q, views, i, d);
    Meets(|q|, i, p, k);
  }

  /** A search with a thread ready throughout settles within one turn. */
  lemma {:induction false} SettlesWithinOneTurn(q: seq<Tid>, views: seq<StatusMap>, i: nat, p: nat)
    requires i < |q| && p < |q| && |views| >= |q| && AlwaysReady(views, q[p])
    ensures exists k :: 1 <= k <= |q| && ReadyAt(q, views, i, k)
  {
    hide Ahead, Distance;
    DistanceBounds(|q|, i, p);
    Meets(|q|, i, p, 1);
    assert ReadyAt(q, views, i, Distance(|q|, i, p));
  }

  lemma {:induction false} PickedWithinDistance(
      q: seq<Tid>, calls: seq<seq<StatusMap>>, at: seq<nat>, p: nat, from: nat, d: nat)
    requires |at| == |calls| + 1 && p < |q| && from < |at| && at[from] < |q|
    requires forall m :: 0 <= m < |calls| ==> Picks(q, calls[m], at[m], at[m + 1])
    requires forall m :: 0 <= m < |calls| ==> AlwaysReady(calls[m], q[p])
    requires 1 <= Distance(|q|, at[from], p) <= d && from + d <= |calls|
    ensures exists m :: from < m <= from + d && at[m] == p
    decreases d
  {
    hide Picks, AlwaysReady, Distance;
    PickApproaches(q, calls[from], at[from], at[from + 1], p);
    if at[from + 1] == p {
    } else {
      DistanceBounds(|q|, at[from + 1], p);
      PickedWithinDistance(q, calls, at, p, from + 1, d - 1);
    }
  }

  /** Main result: on a queue of `n` threads, a thread that is ready at every probe of every call is
      picked within `n` calls, whatever happens to the others meanwhile. */
  lemma {:induction false} PickedWithinOneTurn(q: seq<Tid>, calls: seq<seq<StatusMap>>, at: seq<nat>, p: nat)
    requires |at| == |calls| + 1 && |calls| >= |q| && p < |q| && at[0] < |q|
    requires forall m :: 0 <= m < |calls| ==> Picks(q, calls[m], at[m], at[m + 1])
    requires forall m :: 0 <= m < |calls| ==> AlwaysReady(calls[m], q[p])
    ensures exists m :: 1 <= m <= |q| && at[m] == p
  {
    hide Picks, AlwaysReady, Distance;
    DistanceBounds(|q|, at[0], p);
    PickedWithinDistance(q, calls, at, p, 0, Distance(|q|, at[0], p));
  }

  /** The thread `k` places after `i` is the first ready one strictly after `i`, the thread at `i`
      itself being considered last. */
  ghost predicate FirstReady(q: seq<Tid>, st: StatusMap, i: nat, k: nat) {
    && i < |q| && 1 <= k <= |q|
    && q[Ahead(|q|, i, k)] in st && st[q[Ahead(|q|, i, k)]] == Ready
    && forall j :: 1 <= j < k ==> q[Ahead(|q|, i, j)] !in st || st[q[Ahead(|q|, i, j)]] != Ready
  }

  lemma {:induction false} OneTurn(n: nat, i: nat, k: nat)
    requires i < n
    ensures Ahead(n, i, k + n) == Ahead(n, i, k)
  {
    if k == 0 { AheadWithin(n, i, n); } else { OneTurn(n, i, k - 1); }
  }

  /** A search that no interrupt disturbs stops at the first ready thread, within one turn. */
  lemma {:induction false} QuietSearchIff(q: seq<Tid>, st: StatusMap, views: seq<StatusMap>, i: nat, k: nat)
    requires |views| >= |q| && forall m :: 0 <= m < |views| ==> views[m] == st
    ensures Settles(q, views, i, k) <==> FirstReady(q, st, i, k)
  {
    hide Ahead;
    if Settles(q, views, i, k) {
      if k > |q| { OneTurn(|q|, i, k - |q|); }
      assert k > |q| ==> !ReadyAt(q, views, i, k - |q|);
      forall j | 1 <= j < k ensures q[Ahead(|q|, i, j)] !in st || st[q[Ahead(|q|, i, j)]] != Ready {
        assert !ReadyAt(q, views, i, j);
      }
    }
  }

  /** Interrupts only wake threads. */
  ghost predicate Wakes(st: StatusMap, st': StatusMap) {
    && st'.Keys == st.Keys
    && forall t :: t in st ==> st'[t] == st[t] || (st[t] == Blocked && st'[t] == Ready)
  }

  /** What the search sees, from statuses `st` on. */
  ghost predicate Unfolds(st: StatusMap, views: seq<StatusMap>) {
    forall m :: 0 <= m < |views| ==> Wakes(st, views[m])
  }

  /** The statuses `st'` are `st` after `schedule` has taken the CPU from `t`, and interrupts have
      woken some threads. */
  ghost predicate Preempted(st: StatusMap, t: Tid, st': StatusMap) {
    && st'.Keys == st.Keys
    && (t in st && st[t] == Running ==> st'[t] == Ready)
    && forall u :: u in st && !(u == t && st[u] == Running) ==>
         st'[u] == st[u] || (st[u] == Blocked && st'[u] == Ready)
  }

  /** The statuses when the CPU has gone from `t` to `t'`. */
  ghost predicate Switched(st: StatusMap, t: Tid, st': StatusMap, t': Tid) {
    && st'.Keys == st.Keys
    && (t' != t && t in st && st[t] == Running ==> st'[t] == Ready)
    && forall u :: u in st && u != t && u != t' ==> st'[u] == st[u] || (st[u] == Blocked && st'[u] == Ready)
  }

  ghost predicate Covers(st: StatusMap, q: seq<Tid>) { forall t :: t in q ==> t in st }

  /** The statuses after `probes` probes. */
  function Latest(st: StatusMap, views: seq<StatusMap>, probes: nat): StatusMap
    requires probes <= |views|
  {
    if probes == 0 then st else views[probes - 1]
  }

  lemma {:induction false} LatestPreempted(
      st: StatusMap, t: Tid, now: StatusMap, views: seq<StatusMap>, probes: nat, q: seq<Tid>)
    requires Preempted(st, t, now) && Covers(st, q) && probes <= |views|
    requires forall m :: 0 <= m < |views| ==> Preempted(st, t, views[m])
    ensures Preempted(st, t, Latest(now, views, probes)) && forall u :: u in q ==> u in Latest(now, views, probes)
  {
  }

  lemma {:induction false} PreemptedSwitches(st: StatusMap, t: Tid, now: StatusMap, t': Tid)
    requires Preempted(st, t, now) && t' in now
    ensures Switched(st, t, now[t' := Running], t') && Switched(st, t, now, t)
    ensures forall u :: u in now && now[u] == Running ==> u in st && st[u] == Running && u != t
  {
  }

  ghost predicate SomeReady(q: seq<Tid>, st: StatusMap) { exists t :: t in q && t in st && st[t] == Ready }

  lemma {:induction false} PreemptedWakes(st: StatusMap, t: Tid, now: StatusMap, views: seq<StatusMap>, q: seq<Tid>)
    requires t in st && t in q && Covers(st, q) && now == (if st[t] == Running then st[t := Ready] else st)
    requires forall m :: 0 <= m < |views| ==> Preempted(st, t, views[m])
    ensures Preempted(st, t, now) && Unfolds(now, views) && forall m :: 0 <= m < |views| ==> Covers(views[m], q)
    ensures st[t] == Running || SomeReady(q, st) ==> SomeReady(q, now)
  {
    if SomeReady(q, st) {
      var u :| u in q && u in st && st[u] == Ready;
      assert now[u] == Ready;
    } else if st[t] == Running {
      assert now[t] == Ready;
    }
  }

  lemma {:induction false} StepAhead(n: nat, i: nat, k: nat)
    requires i < n
    ensures Ahead(n, i, 0) == i && Ahead(n, i, k + 1) == Next(n, Ahead(n, i, k))
  {
  }

  /** A thread ready at the start stays so, and is found within one turn. */
  lemma {:induction false} ReadyIsFound(q: seq<Tid>, st: StatusMap, views: seq<StatusMap>, i: nat)
    requires i < |q| && |views| >= |q| && SomeReady(q, st) && Unfolds(st, views)
    ensures !NoneReady(q, views, i, |views|)
  {
    hide Ahead, ReadyAt;
    var t :| t in q && t in st && st[t] == Ready;
    var p :| 0 <= p < |q| && q[p] == t;
    assert forall m :: 0 <= m < |views| ==> Wakes(st, views[m]);
    SettlesWithinOneTurn(q, views, i, p);
  }

  lemma {:induction false} SettlesBounds(q: seq<Tid>, views: seq<StatusMap>, i: nat, k: nat)
    requires Settles(q, views, i, k)
    ensures 1 <= k <= |views| && i < |q|
  {
  }

  /** One thread and its alarm after the sweep at tick `now`. */
  function Ticked(st: StatusMap, alarms: map<Tid, Alarm>, t: Tid, now: Word): (s: Sleeper)
    requires t in st && t in alarms
    ensures s.status == Running <==> st[t] == Running
  {
    Tick(Sleeper(st[t], alarms[t]), now)
  }

  /** A thread that is not blocked or has no alarm set keeps its status and its alarm; any other may
      become ready, and then its alarm is off. */
  ghost predicate OnlySetAlarmsWake(
      st: StatusMap, al: map<Tid, Alarm>, st': StatusMap, al': map<Tid, Alarm>, q: seq<Tid>) {
    forall t :: t in q && t in st && t in al ==>
      && t in st' && t in al'
      && (!al[t].enabled || st[t] != Blocked ==> st'[t] == st[t] && al'[t] == al[t])
      && (st'[t] != st[t] ==> st[t] == Blocked && st'[t] == Ready && al[t].enabled && !al'[t].enabled)
  }

  lemma {:induction false} SweepWakes(
      st: StatusMap, al: map<Tid, Alarm>, st': StatusMap, al': map<Tid, Alarm>, q: seq<Tid>, now: Word)
    requires forall t :: t in q ==>
      t in st && t in al && t in st' && t in al' && Sleeper(st'[t], al'[t]) == Ticked(st, al, t, now)
    ensures OnlySetAlarmsWake(st, al, st', al', q)
  {
    forall t | t in q && t in st && t in al
      ensures !al[t].enabled || st[t] != Blocked ==> st'[t] == st[t] && al'[t] == al[t]
      ensures st'[t] != st[t] ==> st[t] == Blocked && st'[t] == Ready && al[t].enabled && !al'[t].enabled
    {
      SilentUnlessSet(al[t], now);
      assert Sleeper(st'[t], al'[t]) == Ticked(st, al, t, now);
    }
  }

  /** The running thread is queued, and no other queued thread is in state running. */
  ghost predicate Consistent(runq: seq<Tid>, rthread: Tid, st: StatusMap, armed: set<Tid>) {
    && NoDup(runq) && rthread in runq
    && (forall t :: t in runq ==> t in st && t in armed)
    && (forall t :: t in runq && st[t] == Running ==> t == rthread)
  }

  lemma {:induction false} SwitchKeepsConsistent(q: seq<Tid>, t: Tid, st: StatusMap, armed: set<Tid>, now: StatusMap)
    requires Consistent(q, t, st, armed) && Preempted(st, t, now)
    ensures Consistent(q, t, now, armed)
    ensures forall u :: u in q ==> Consistent(q, u, now[u := Running], armed) && u in now
  {
  }

  lemma {:induction false} ConsistentMeans(q: seq<Tid>, t: Tid, st: StatusMap, armed: set<Tid>)
    requires Consistent(q, t, st, armed)
    ensures t in q && t in st && Covers(st, q)
  {
  }

  /** What `schedule` makes of the statuses `st` with `t` running, as far as the probes that see `views`:
      the thread of the first probe that finds it ready becomes the running one; the old one is ready
      unless it was blocked, and only interrupts change others. It is done within one turn if some
      thread was ready, or the caller still running. */
  ghost predicate Scheduled(
      q: seq<Tid>, st: StatusMap, t: Tid, views: seq<StatusMap>, done: bool, probes: nat, i: nat,
      st': StatusMap, t': Tid) {
    && i < |q| && q[i] == t && probes <= |views|
    && (done ==>
          && Settles(q, views, i, probes)
          && t' == q[(i + probes) % |q|] && st' == views[probes - 1][t' := Running])
    && (!done ==>
          && NoneReady(q, views, i, |views|) && t' == t
          && Preempted(st, t, st') && (views != [] ==> st' == views[|views| - 1]))
    && Switched(st, t, st', t')
    && (|views| >= |q| && t in st && (st[t] == Running || SomeReady(q, st)) ==> done)
  }

  lemma {:induction false} SearchDone(
      q: seq<Tid>, st: StatusMap, t: Tid, views: seq<StatusMap>, probes: nat, i: nat, t': Tid)
    requires Settles(q, views, i, probes) && q[i] == t && t' == q[(i + probes) % |q|]
    requires Preempted(st, t, views[probes - 1]) && t' in views[probes - 1]
    ensures Scheduled(q, st, t, views, true, probes, i, views[probes - 1][t' := Running], t')
  {
    hide Settles, Preempted, Switched, NoneReady, SomeReady;
    SettlesBounds(q, views, i, probes);
    PreemptedSwitches(st, t, views[probes - 1], t');
  }

  lemma {:induction false} StillPolling(
      q: seq<Tid>, st: StatusMap, t: Tid, now: StatusMap, views: seq<StatusMap>, i: nat)
    requires i < |q| && q[i] == t && NoneReady(q, views, i, |views|) && Unfolds(now, views) && t in now
    requires Preempted(st, t, Latest(now, views, |views|)) && t in Latest(now, views, |views|)
    requires t in st && (st[t] == Running || SomeReady(q, st) ==> SomeReady(q, now))
    ensures Scheduled(q, st, t, views, false, |views|, i, Latest(now, views, |views|), t)
  {
    hide Settles, Preempted, Switched, NoneReady, SomeReady;
    PreemptedSwitches(st, t, Latest(now, views, |views|), t);
    if |views| >= |q| && SomeReady(q, now) { ReadyIsFound(q, now, views, i); }
  }

  /** `cpu_state_t`, with the statuses and alarms of the threads in its run queue. */
  class Cpu {
    var runq: seq<Tid>
    var rthread: Tid
    var status: StatusMap
    var alarms: map<Tid, Alarm>

    ghost predicate Valid()
      reads this
    {
      Consistent(runq, rthread, status, alarms.Keys)
    }

    constructor (runq: seq<Tid>, rthread: Tid, status: StatusMap, alarms: map<Tid, Alarm>)
      ensures this.runq == runq && this.rthread == rthread && this.status == status && this.alarms == alarms
    {
      this.runq, this.rthread, this.status, this.alarms := runq, rthread, status, alarms;
    }

    /** `find_thread_in_rq`, for a queued thread. */
    method Find(t: Tid) returns (i: nat)
      requires t in runq
      ensures i < |runq| && runq[i] == t
    {
      i := 0;
      while runq[i] != t
        invariant i < |runq| && forall k :: 0 <= k < i ==> runq[k] != t
        decreases |runq| - i
      {
        i := i + 1;
      }
    }

    /** `__do_sched_rr`, as far as the probes that see `views`: the first probe that finds its
        thread ready ends the search; without one the loop is still polling. */
    method PickNext(views: seq<StatusMap>) returns (next: Option<Tid>, probes: nat, ghost i: nat)
      requires Valid() && forall m :: 0 <= m < |views| ==> Covers(views[m], runq)
      ensures i < |runq| && runq[i] == rthread && probes <= |views|
      ensures next.None? ==> probes == |views| && NoneReady(runq, views, i, probes)
      ensures next.Some? ==> Settles(runq, views, i, probes) && next.value == runq[(i + probes) % |runq|]
    {
      hide Ahead;
      var at := Find(rthread);
      i, probes := at, 0;
      StepAhead(|runq|, i, 0);
      while probes < |views|
        invariant probes <= |views| && at == Ahead(|runq|, i, probes) && NoneReady(runq, views, i, probes)
      {
        StepAhead(|runq|, i, probes);
        if at + 1 == |runq| {
          at := 0;
        } else {
          at := at + 1;
        }
        probes := probes + 1;
        assert Covers(views[probes - 1], runq) && runq[at] in runq;
        if views[probes - 1][runq[at]] == Ready {
          assert ReadyAt(runq, views, i, probes);
          AheadIsRemainder(|runq|, i, probes);
          return Some(runq[at]), probes, i;
        }
      }
      next := None;
    }

    /** `schedule`, as far as the probes that see `views`. */
    method Schedule(views: seq<StatusMap>) returns (done: bool, probes: nat, ghost i: nat)
      requires Valid() && forall m :: 0 <= m < |views| ==> Preempted(status, rthread, views[m])
      modifies this`rthread, this`status
      ensures Valid()
      ensures Scheduled(runq, old(status), old(rthread), views, done, probes, i, status, rthread)
    {
      ConsistentMeans(runq, rthread, status, alarms.Keys);
      hide Ahead, ReadyAt, Settles, NoneReady, Consistent, Scheduled, Preempted, Switched, SomeReady, Covers;
      ghost var before, was := status, rthread;
      if status[rthread] == Running {
        status := status[rthread := Ready];
      }
      ghost var st := status;
      PreemptedWakes(before, was, st, views, runq);
      SwitchKeepsConsistent(runq, was, before, alarms.Keys, st);
      var next;
      next, probes, i := PickNext(views);
      done := next.Some?;
      LatestPreempted(before, was, st, views, probes, runq);
      status := Latest(status, views, probes);
      SwitchKeepsConsistent(runq, was, before, alarms.Keys, status);
      if next.Some? {
        SettlesBounds(runq, views, i, probes);
        status := status[next.value := Running];
        rthread := next.value;
        SearchDone(runq, before, was, views, probes, i, rthread);
      } else {
        StillPolling(runq, before, was, st, views, i);
      }
    }

    /** The sweep's body, for one thread. */
    method CheckAlarm(t: Tid, now: Word)
      requires t in status && t in alarms
      modifies this`status, this`alarms
      ensures status == old(status)[t := Ticked(old(status), old(alarms), t, now).status]
      ensures alarms == old(alarms)[t := Ticked(old(status), old(alarms), t, now).alarm]
    {
      if status[t] == Blocked {
        if Check(alarms[t], now) {
          alarms := alarms[t := Unset(alarms[t])];
          status := WakeUp(status, t);
        }
      }
    }

    /** The loop of the sweep. */
    method Sweep(now: Word)
      requires Valid()
      modifies this`status, this`alarms
      ensures Valid()
      ensures status.Keys == old(status.Keys) && alarms.Keys == old(alarms.Keys)
      ensures forall t :: t in runq ==> Sleeper(status[t], alarms[t]) == Ticked(old(status), old(alarms), t, now)
      ensures forall t :: t in status && t !in runq ==> status[t] == old(status)[t]
      ensures forall t :: t in alarms && t !in runq ==> alarms[t] == old(alarms)[t]
    {
      hide Tick;
      for i := 0 to |runq|
        invariant status.Keys == old(status.Keys) && alarms.Keys == old(alarms.Keys)
        invariant forall k :: 0 <= k < i ==>
          Sleeper(status[runq[k]], alarms[runq[k]]) == Ticked(old(status), old(alarms), runq[k], now)
        invariant forall k :: i <= k < |runq| ==>
          status[runq[k]] == old(status)[runq[k]] && alarms[runq[k]] == old(alarms)[runq[k]]
        invariant forall t :: t in status && t !in runq ==> status[t] == old(status)[t]
        invariant forall t :: t in alarms && t !in runq ==> alarms[t] == old(alarms)[t]
      {
        CheckAlarm(runq[i], now);
      }
    }

    /** `check_thread_alarms` at tick `now`: exactly the blocked threads whose alarm rings become
        ready, with their alarm unset. */
    method CheckThreadAlarms(now: Word)
      requires Valid()
      modifies this`status, this`alarms
      ensures Valid()
      ensures status.Keys == old(status.Keys) && alarms.Keys == old(alarms.Keys)
      ensures forall t :: t in runq ==> Sleeper(status[t], alarms[t]) == Ticked(old(status), old(alarms), t, now)
      ensures forall t :: t in status && t !in runq ==> status[t] == old(status)[t]
      ensures forall t :: t in alarms && t !in runq ==> alarms[t] == old(alarms)[t]
      ensures OnlySetAlarmsWake(old(status), old(alarms), status, alarms, runq)
    {
      hide Ticked, OnlySetAlarmsWake;
      Sweep(now);
      SweepWakes(old(status), old(alarms), status, alarms, runq, now);
    }
  }
}
