/** What becomes of a write that a sync of src/bbuf.c loses: exactly the losing steps can be observed
    by a later read, and they do occur. */
module LostWrites {
  import opened Wrappers
  import opened RamDisk
  import opened Threads
  import opened Queues
  import opened BufferCache
  import opened ConcurrentCache

  /** Some run without a losing step leads from `s` to `s'`. */
  ghost predicate Leads(s: System, s': System) {
    exists actions :: Runs(s, actions) && LossFree(s, actions) && After(s, actions) == s'
  }

  lemma {:induction false} RunExtend(s: System, actions: seq<Action>, a: Action)
    requires Runs(s, actions) && LossFree(s, actions) && Enabled(After(s, actions), a)
    requires a.SyncClear? ==> !LosesWrite(After(s, actions))
    ensures Runs(s, actions + [a]) && LossFree(s, actions + [a])
    ensures After(s, actions + [a]) == Do(After(s, actions), a)
    decreases |actions|
  {
    hide Enabled, Do, LosesWrite;
    if actions == [] {
      assert actions + [a] == [a] && [a][1..] == [];
      assert Runs(Do(s, a), []) && LossFree(Do(s, a), []);
    } else {
      RunExtend(Do(s, actions[0]), actions[1..], a);
      assert (actions + [a])[0] == actions[0] && (actions + [a])[1..] == actions[1..] + [a];
    }
  }

  lemma {:induction false} LeadsNowhere(s: System)
    ensures Leads(s, s)
  {
    assert Runs(s, []) && LossFree(s, []) && After(s, []) == s;
  }

  lemma {:induction false} LeadsStep(s0: System, s: System, a: Action)
    requires Leads(s0, s) && Enabled(s, a) && (a.SyncClear? ==> !LosesWrite(s))
    ensures Leads(s0, Do(s, a))
  {
    var actions :| Runs(s0, actions) && LossFree(s0, actions) && After(s0, actions) == s;
    RunExtend(s0, actions, a);
  }

  /** Thread `u` is about to return OK with data that is not the last written. */
  ghost predicate StaleRead(s: System, u: Tid) {
    && u in s.pc && s.pc[u].ReadOut? && s.pc[u].status == 0 && s.pc[u].i < |s.c.bufs|
    && s.pc[u].blk < |s.disk| && s.c.bufs[s.pc[u].i].data != s.disk[s.pc[u].blk]
  }

  /** The device holds something else than was last written to block `blk`. */
  ghost predicate Behind(s: System, blk: nat)
    requires Shape(s)
  {
    blk < |s.disk| && BlockAt(s.c.image, blk) != s.disk[blk]
  }

  // ----------------------------------------------------------------------- the rest of a sync

  ghost predicate NoneDirty(s: System, blk: nat) {
    forall i :: 0 <= i < |s.c.bufs| && Holds(s.c.bufs[i], blk) ==> !s.c.bufs[i].dirty
  }

  /** Going on from `s` to `s'`, only thread `t` moved and at most DIRTY flags were cleared; block
      `blk` is as it was. */
  ghost predicate Quiet(s: System, s': System, t: Tid, blk: nat)
    requires Shape(s) && Shape(s')
  {
    && s'.disk == s.disk && |s'.c.bufs| == |s.c.bufs|
    && (forall u :: u in s.pc && u != t ==> u in s'.pc && s'.pc[u] == s.pc[u])
    && (forall i :: 0 <= i < |s.c.bufs| ==>
          s'.c.bufs[i] == s.c.bufs[i] || s'.c.bufs[i] == s.c.bufs[i].(dirty := false))
    && NoneDirty(s', blk)
    && (blk < |s.disk| ==> BlockAt(s'.c.image, blk) == BlockAt(s.c.image, blk))
  }

  /** A sync by `t` stands before its next buffer. */
  ghost predicate AtNext(s: System, t: Tid) { s.lock.Syncing? && s.lock.t == t && !s.lock.wrote }

  /** A dirty buffer of the walk is written to the device. */
  lemma {:induction false} SyncFlushWrite(s0: System, s: System, t: Tid, blk: nat) returns (s': System)
    requires Own(s) && Leads(s0, s) && AtNext(s, t) && s.lock.todo != [] && NoneDirty(s, blk)
    requires Flushable(s.c, s.lock.todo[0])
    ensures Own(s') && Leads(s0, s') && Quiet(s, s', t, blk)
    ensures s'.lock == s.lock.(wrote := true) && !LosesWrite(s')
  {
    var i := s.lock.todo[0];
    var b := s.c.bufs[i];
    var a := SyncWrite(t, b.data);
    assert Holds(b, b.blkno) && b.blkno != blk by { assert FlagsOk(b, PhaseOf(s, i)); }
    PutThenGet(s.c.image, b.blkno, b.data, b.blkno);
    if blk < |s.disk| { PutThenGet(s.c.image, b.blkno, b.data, blk); }
    StepKeepsOwn(s, a);
    hide Leads, Listed, Linked, Queued, LockOk, Unique, PutBlock;
    LeadsStep(s0, s, a);
    s' := Do(s, a);
  }

  /** And its DIRTY flag is cleared. */
  lemma {:induction false} SyncFlushClear(s0: System, s: System, t: Tid, blk: nat) returns (s': System)
    requires Own(s) && Leads(s0, s) && Enabled(s, SyncClear(t)) && !LosesWrite(s) && NoneDirty(s, blk)
    ensures Own(s') && Leads(s0, s') && Quiet(s, s', t, blk)
    ensures AtNext(s', t) && s'.lock.todo == s.lock.todo[1..]
  {
    StepKeepsOwn(s, SyncClear(t));
    hide Leads, Listed, Linked, Queued, LockOk, Unique, LosesWrite, Without;
    LeadsStep(s0, s, SyncClear(t));
    s' := Do(s, SyncClear(t));
  }

  lemma {:induction false} OwnShape(s: System)
    requires Own(s)
    ensures Shape(s)
  {
  }

  lemma {:induction false} SyncSkipped(s0: System, s: System, t: Tid, blk: nat) returns (s': System)
    requires Own(s) && Leads(s0, s) && AtNext(s, t) && s.lock.todo != [] && NoneDirty(s, blk)
    requires !Flushable(s.c, s.lock.todo[0])
    ensures Own(s') && Leads(s0, s') && Quiet(s, s', t, blk)
    ensures AtNext(s', t) && |s'.lock.todo| < |s.lock.todo|
  {
    s' := Do(s, SyncSkip(t));
    StepKeepsOwn(s, SyncSkip(t));
    hide Leads, Listed, Linked, Queued, LockOk, Unique;
    LeadsStep(s0, s, SyncSkip(t));
  }

  lemma {:induction false} QuietKeepsThreads(s: System, s': System, t: Tid, blk: nat)
    requires Own(s) && Own(s') && AtNext(s, t) && Quiet(s, s', t, blk) && s'.lock == s.lock.(wrote := true)
    ensures Enabled(s', SyncClear(t)) && NoneDirty(s', blk)
  {
  }

  lemma {:induction false} QuietTrans(a: System, b: System, c: System, t: Tid, blk: nat)
    requires Shape(a) && Shape(b) && Shape(c) && Quiet(a, b, t, blk) && Quiet(b, c, t, blk)
    ensures Quiet(a, c, t, blk)
  {
  }

  /** One buffer of the walk. */
  lemma {:induction false} SyncOne(s0: System, s: System, t: Tid, blk: nat) returns (s': System)
    requires Own(s) && Leads(s0, s) && AtNext(s, t) && s.lock.todo != [] && NoneDirty(s, blk)
    ensures Own(s') && Leads(s0, s') && Quiet(s, s', t, blk)
    ensures AtNext(s', t) && |s'.lock.todo| < |s.lock.todo|
  {
    if Flushable(s.c, s.lock.todo[0]) {
      hide Own, Leads, LosesWrite, Quiet, NoneDirty, Flushable;
      var s1 := SyncFlushWrite(s0, s, t, blk);
      QuietKeepsThreads(s, s1, t, blk);
      s' := SyncFlushClear(s0, s1, t, blk);
      OwnShape(s); OwnShape(s1); OwnShape(s');
      QuietTrans(s, s1, s', t, blk);
    } else {
      s' := SyncSkipped(s0, s, t, blk);
    }
  }

  /** The sync runs to its end. */
  lemma {:induction false} FinishSync(s0: System, s: System, t: Tid, blk: nat) returns (s': System)
    requires Own(s) && Leads(s0, s) && AtNext(s, t) && NoneDirty(s, blk)
    ensures Own(s') && Leads(s0, s') && Quiet(s, s', t, blk) && s'.lock.Free?
    decreases |s.lock.todo|
  {
    if s.lock.todo == [] {
      s' := Do(s, SyncEnd(t));
      StepKeepsOwn(s, SyncEnd(t));
      LeadsStep(s0, s, SyncEnd(t));
    } else {
      var s1 := SyncOne(s0, s, t, blk);
      assert NoneDirty(s1, blk);
      s' := FinishSync(s0, s1, t, blk);
      QuietTrans(s, s1, s', t, blk);
    }
  }

  // ------------------------------------------------------------------------------ reading it

  /** Thread `u` is idle, buffer `i` is idle and clean, and no other buffer holds block `blk`, of
      which the device is behind. */
  ghost predicate StaleAt(s: System, u: Tid, i: nat, blk: nat) {
    && Own(s) && s.lock.Free? && u in s.pc && s.pc[u] == Outside && Behind(s, blk)
    && i < |s.c.bufs| && s.c.bufs[i].usr == None && !s.c.bufs[i].dirty
    && forall j :: 0 <= j < |s.c.bufs| && j != i ==> !Holds(s.c.bufs[j], blk)
  }

  /** An idle clean buffer may be reassigned. */
  lemma {:induction false} SomeAvailable(s: System, i: nat)
    requires Own(s) && i < |s.c.bufs| && s.c.bufs[i].usr == None && !s.c.bufs[i].dirty
    ensures i in s.c.list && Available(s.c.bufs[i])
  {
    assert FlagsOk(s.c.bufs[i], PhaseOf(s, i));
  }

  /** A buffer neither valid nor dirty is filled from the device. */
  lemma {:induction false} ReadIn(s0: System, s: System, u: Tid) returns (s': System)
    requires Own(s) && Leads(s0, s) && s.lock.Free? && u in s.pc && s.pc[u].ReadCheck?
    requires var b := s.c.bufs[s.pc[u].i]; !b.valid && !b.dirty
    ensures Own(s') && Leads(s0, s') && s'.lock.Free? && s'.disk == s.disk && s'.c.image == s.c.image
    ensures var p := s.pc[u];
      var status := if p.blk < |s.disk| then 0 else -1;
      && s'.pc == s.pc[u := ReadOut(p.i, p.blk, status)] && s'.stamp == s.stamp && s'.clock == s.clock
      && p.i < |s.c.bufs| && |s'.c.bufs| == |s.c.bufs| && s'.c.bufs == s.c.bufs[p.i := s'.c.bufs[p.i]]
      && SameUse(s.c.bufs[p.i], s'.c.bufs[p.i]) && !s'.c.bufs[p.i].dirty
      && (p.blk < |s.disk| ==> s'.c.bufs[p.i].data == BlockAt(s.c.image, p.blk))
  {
    var p := s.pc[u];
    assert Holds(s.c.bufs[p.i], p.blk);
    var s1 := Do(s, Check(u));
    StepKeepsOwn(s, Check(u));
    LeadsStep(s0, s, Check(u));
    assert s.c.bufs[p.i := s.c.bufs[p.i]] == s.c.bufs;
    assert s1 == s.(pc := s.pc[u := ReadFill(p.i, p.blk)]);
    s' := Do(s1, Fill(u));
    StepKeepsOwn(s1, Fill(u));
    hide Leads, Own;
    LeadsStep(s0, s1, Fill(u));
    assert s1.pc[u := ReadOut(p.i, p.blk, if p.blk < |s.disk| then 0 else -1)] ==
      s.pc[u := ReadOut(p.i, p.blk, if p.blk < |s.disk| then 0 else -1)];
  }

  lemma {:induction false} NotBusy(s: System, u: Tid, i: nat, blk: nat)
    requires StaleAt(s, u, i, blk)
    ensures Obtains(s, blk, u)
  {
    SomeAvailable(s, i);
    assert FlagsOk(s.c.bufs[i], PhaseOf(s, i));
  }

  /** If the holder of the block, if any, is not valid, the next read is stale. */
  lemma {:induction false} DirectRead(s0: System, s: System, u: Tid, i: nat, blk: nat) returns (s': System)
    requires StaleAt(s, u, i, blk) && Leads(s0, s) && (Holds(s.c.bufs[i], blk) ==> !s.c.bufs[i].valid)
    ensures Leads(s0, s') && StaleRead(s', u)
  {
    SomeAvailable(s, i);
    var a := Obtain(u, blk, None);
    var s1 := Do(s, a);
    assert Obtains(s, blk, u) by { NotBusy(s, u, i, blk); }
    ObtainIsExclusive(s, u, blk);
    StepKeepsOwn(s, a);
    LeadsStep(s0, s, a);
    var (c, got) := TryGet(s.c, blk, u);
    assert got.Hit? ==> got.i == i;
    assert s1.pc[u] == ReadCheck(got.i, blk) && s1.c == c && s1.disk == s.disk && s1.lock == s.lock;
    hide Leads, TryGet, Own;
    s' := ReadIn(s0, s1, u);
  }

  /** A block number larger than any in the cache. */
  function Unheld(bufs: seq<Buf>): nat {
    if bufs == [] then 0
    else
      var n, b := Unheld(bufs[..|bufs| - 1]), bufs[|bufs| - 1].blkno;
      if b >= n then b + 1 else n
  }

  lemma {:induction false} UnheldIsLarger(bufs: seq<Buf>, j: nat)
    requires j < |bufs|
    ensures bufs[j].blkno < Unheld(bufs)
  {
    if j < |bufs| - 1 { UnheldIsLarger(bufs[..|bufs| - 1], j); }
  }

  /** Buffers other than `i` that were released no later than it. */
  ghost function NoNewer(stamp: seq<nat>, i: nat): set<nat>
    requires i < |stamp|
  {
    set k | 0 <= k < |stamp| && k != i && stamp[k] <= stamp[i]
  }

  lemma {:induction false} TakeOver(s0: System, s: System, u: Tid, i: nat, f: nat) returns (s': System, j: nat)
    requires Own(s) && Leads(s0, s) && s.lock.Free? && u in s.pc && s.pc[u] == Outside
    requires i < |s.c.bufs| && s.c.bufs[i].usr == None && !s.c.bufs[i].dirty
    requires forall k :: 0 <= k < |s.c.bufs| ==> !Holds(s.c.bufs[k], f)
    ensures Own(s') && Leads(s0, s')
    ensures s'.lock == s.lock && s'.disk == s.disk && s'.stamp == s.stamp && s'.clock == s.clock
    ensures j < |s.c.bufs| && s.stamp[j] <= s.stamp[i] <= s.clock
    ensures s'.pc == s.pc[u := ReadCheck(j, f)] && s'.c.image == s.c.image
    ensures s'.c.bufs == s.c.bufs[j := s'.c.bufs[j]]
    ensures var b := s'.c.bufs[j]; b.blkno == f && !b.valid && !b.dirty
  {
    SomeAvailable(s, i);
    var (c, got) := TryGet(s.c, f, u);
    assert got.Fresh?;
    ReassignsOldestIdle(s, u, f);
    assert FlagsOk(s.c.bufs[i], PhaseOf(s, i));
    var a := Obtain(u, f, None);
    StepKeepsOwn(s, a);
    hide Leads, Linked, Queued, LockOk, Unique;
    LeadsStep(s0, s, a);
    s', j := Do(s, a), got.i;
  }

  lemma {:induction false} Returned(s0: System, s: System, u: Tid) returns (s': System)
    requires Own(s) && Leads(s0, s) && u in s.pc && s.pc[u].ReadOut?
    ensures Own(s') && Leads(s0, s') && s' == s.(pc := s.pc[u := Leaving(s.pc[u].i, s.pc[u].blk)])
    ensures s.pc[u].i < |s.c.bufs|
  {
    var p := s.pc[u];
    assert s.c.bufs[p.i := s.c.bufs[p.i]] == s.c.bufs;
    StepKeepsOwn(s, Return(u));
    hide Own, Leads;
    LeadsStep(s0, s, Return(u));
    s' := Do(s, Return(u));
  }

  /** What a release leaves, apart from the list. */
  ghost predicate Released(s: System, s': System, u: Tid) {
    && u in s.pc && Holding(s.pc[u])
    && var i := s.pc[u].i;
    && i < |s.c.bufs| && i < |s.stamp|
    && s'.lock == s.lock && s'.disk == s.disk && s'.c.image == s.c.image && s'.pc == s.pc[u := Outside]
    && s'.c.bufs == s.c.bufs[i := s.c.bufs[i].(busy := false, usr := None)]
    && s'.stamp == s.stamp[i := s.clock + 1] && s'.clock == s.clock + 1
  }

  lemma {:induction false} LetGoReleases(s: System, u: Tid)
    requires Enabled(s, LetGo(u))
    ensures Released(s, Do(s, LetGo(u)), u)
  {
    hide Without, Shaped;
  }

  lemma {:induction false} LetGone(s0: System, s: System, u: Tid) returns (s': System)
    requires Own(s) && Leads(s0, s) && s.lock.Free? && u in s.pc && s.pc[u].Leaving?
    ensures Own(s') && Leads(s0, s') && Released(s, s', u)
  {
    assert Enabled(s, LetGo(u));
    hide Own, Leads, Enabled, Do, Released;
    StepKeepsOwn(s, LetGo(u));
    LeadsStep(s0, s, LetGo(u));
    LetGoReleases(s, u);
    s' := Do(s, LetGo(u));
  }

  /** Thread `u` returns and releases its buffer. */
  lemma {:induction false} GiveUp(s0: System, s: System, u: Tid) returns (s': System)
    requires Own(s) && Leads(s0, s) && s.lock.Free? && u in s.pc && s.pc[u].ReadOut?
    ensures Own(s') && Leads(s0, s') && s'.lock.Free? && s'.disk == s.disk && s'.c.image == s.c.image
    ensures var i := s.pc[u].i;
      && i < |s.c.bufs| && i < |s.stamp| && s'.pc == s.pc[u := Outside]
      && s'.c.bufs == s.c.bufs[i := s.c.bufs[i].(busy := false, usr := None)]
      && s'.stamp == s.stamp[i := s.clock + 1] && s'.clock == s.clock + 1
  {
    hide Own, Leads;
    var s1 := Returned(s0, s, u);
    s' := LetGone(s0, s1, u);
    assert s1.pc[u := Outside] == s.pc[u := Outside];
  }

  /** Reading a block nobody holds takes over the oldest idle clean buffer and leaves it idle and
      clean as the newest. */
  lemma {:induction false} ReadAnother(s0: System, s: System, u: Tid, i: nat, f: nat) returns (s': System, j: nat)
    requires Own(s) && Leads(s0, s) && s.lock.Free? && u in s.pc && s.pc[u] == Outside
    requires i < |s.c.bufs| && s.c.bufs[i].usr == None && !s.c.bufs[i].dirty
    requires forall k :: 0 <= k < |s.c.bufs| ==> !Holds(s.c.bufs[k], f)
    ensures Own(s') && Leads(s0, s') && s'.lock.Free? && s'.disk == s.disk && s'.c.image == s.c.image && s'.pc == s.pc
    ensures j < |s.c.bufs| && s.stamp[j] <= s.stamp[i] <= s.clock
    ensures |s'.c.bufs| == |s.c.bufs| && (forall k :: 0 <= k < |s.c.bufs| && k != j ==> s'.c.bufs[k] == s.c.bufs[k])
    ensures var b := s'.c.bufs[j]; b.blkno == f && b.usr == None && !b.dirty
    ensures s'.stamp == s.stamp[j := s.clock + 1]
  {
    hide Own, Leads;
    var s1: System;
    s1, j := TakeOver(s0, s, u, i, f);
    var s2 := ReadIn(s0, s1, u);
    s' := GiveUp(s0, s2, u);
    assert s2.pc[u := Outside] == s.pc;
  }

  lemma {:induction false} SmallerSet(a: set<nat>, b: set<nat>)
    requires a <= b
    ensures |a| <= |b|
  {
    if a != {} {
      var x :| x in a;
      SmallerSet(a - {x}, b - {x});
    }
  }

  /** Taking another buffer that is no newer leaves fewer of them. */
  lemma {:induction false} FewerNoNewer(stamp: seq<nat>, stamp': seq<nat>, i: nat, j: nat)
    requires i < |stamp| && j < |stamp| && i != j && stamp[j] <= stamp[i]
    requires |stamp'| == |stamp| && stamp' == stamp[j := stamp'[j]] && stamp'[j] > stamp[i]
    ensures |NoNewer(stamp', i)| < |NoNewer(stamp, i)|
  {
    assert j in NoNewer(stamp, i) && j !in NoNewer(stamp', i);
    assert NoNewer(stamp', i) <= NoNewer(stamp, i) - {j};
    SmallerSet(NoNewer(stamp', i), NoNewer(stamp, i) - {j});
  }

  /** A valid buffer is pushed out by reads of other blocks, and then the device is read. */
  lemma {:induction false} EvictAndRead(s0: System, s: System, u: Tid, i: nat, blk: nat) returns (s': System)
    requires StaleAt(s, u, i, blk) && Leads(s0, s)
    ensures Leads(s0, s') && StaleRead(s', u)
    decreases |NoNewer(s.stamp, i)|
  {
    if !Holds(s.c.bufs[i], blk) || !s.c.bufs[i].valid {
      s' := DirectRead(s0, s, u, i, blk);
    } else {
      var f := Unheld(s.c.bufs);
      forall k | 0 <= k < |s.c.bufs| ensures !Holds(s.c.bufs[k], f) { UnheldIsLarger(s.c.bufs, k); }
      UnheldIsLarger(s.c.bufs, i);
      var s1, j := ReadAnother(s0, s, u, i, f);
      hide Leads, Own, Unheld;
      assert StaleAt(s1, u, i, blk);
      if j == i {
        s' := DirectRead(s0, s1, u, i, blk);
      } else {
        FewerNoNewer(s.stamp, s1.stamp, i, j);
        s' := EvictAndRead(s0, s1, u, i, blk);
      }
    }
  }

  // ------------------------------------------------------------------------------ the result

  /** The state right after the losing clear. */
  lemma {:induction false} Cleared(s: System, t: Tid) returns (s1: System)
    requires Own(s) && Data(s) && Enabled(s, SyncClear(t)) && LosesWrite(s)
    ensures s1 == Do(s, SyncClear(t)) && Own(s1) && AtNext(s1, t)
    ensures var i := s.lock.todo[0];
      var blk, usr := s.c.bufs[i].blkno, s.c.bufs[i].usr;
      && usr.Some? && usr.value in s1.pc && usr.value != t && s1.pc[usr.value] == WriteQueue(i, blk)
      && Behind(s1, blk) && NoneDirty(s1, blk)
  {
    var i := s.lock.todo[0];
    LossNeedsOverlap(s);
    StepKeepsOwn(s, SyncClear(t));
    s1 := Do(s, SyncClear(t));
    assert FlagsOk(s.c.bufs[i], PhaseOf(s, i)) && DataOk(s.c.bufs[i], PhaseOf(s, i), s.disk);
    assert Holds(s1.c.bufs[i], s.c.bufs[i].blkno);
  }

  /** The writer still stands where it was when the sync has ended. */
  lemma {:induction false} HolderKept(s: System, s': System, t: Tid, u: Tid, i: nat, blk: nat)
    requires Own(s) && Own(s') && Quiet(s, s', t, blk) && Behind(s, blk)
    requires u in s.pc && u != t && s.pc[u] == WriteQueue(i, blk)
    ensures u in s'.pc && s'.pc[u] == WriteQueue(i, blk) && Behind(s', blk)
    ensures i < |s'.c.bufs| && !s'.c.bufs[i].dirty
    ensures forall j :: 0 <= j < |s'.c.bufs| && j != i ==> !Holds(s'.c.bufs[j], blk)
  {
    assert Holds(s'.c.bufs[i], blk);
  }

  lemma {:induction false} QueuedUp(s0: System, s: System, u: Tid) returns (s': System)
    requires Own(s) && Leads(s0, s) && s.lock.Free? && u in s.pc && s.pc[u].WriteQueue?
    ensures Own(s') && Leads(s0, s') && s'.lock == s.lock && s'.disk == s.disk && s'.c.image == s.c.image
    ensures s'.c.bufs == s.c.bufs && s'.pc == s.pc[u := Leaving(s.pc[u].i, s.pc[u].blk)]
  {
    StepKeepsOwn(s, Enqueue(u));
    hide Leads, Without;
    LeadsStep(s0, s, Enqueue(u));
    s' := Do(s, Enqueue(u));
  }

  /** After the losing clear, the sync ends and the writer queues and releases its buffer. */
  lemma {:induction false} LossLeadsToStale(s: System, t: Tid) returns (s': System, u: Tid, i: nat, blk: nat)
    requires Own(s) && Data(s) && Enabled(s, SyncClear(t)) && LosesWrite(s)
    ensures Leads(Do(s, SyncClear(t)), s') && StaleAt(s', u, i, blk)
  {
    i := s.lock.todo[0];
    u, blk := s.c.bufs[i].usr.value, s.c.bufs[i].blkno;
    var s1 := Cleared(s, t);
    LeadsNowhere(s1);
    var s2 := FinishSync(s1, s1, t, blk);
    HolderKept(s1, s2, t, u, i, blk);
    hide Leads, Quiet, LosesWrite, Data;
    var s3 := QueuedUp(s1, s2, u);
    s' := LetGone(s1, s3, u);
    hide Own;
  }

  /** A losing clear can be observed: going on without another loss, some read returns OK with data
      that is not the last written. */
  lemma {:induction false} LossIsObservable(s: System, t: Tid) returns (s': System, u: Tid)
    requires Own(s) && Data(s) && Enabled(s, SyncClear(t)) && LosesWrite(s)
    ensures Leads(Do(s, SyncClear(t)), s') && StaleRead(s', u)
  {
    var i, blk, s1;
    s1, u, i, blk := LossLeadsToStale(s, t);
    hide Leads, StaleAt, StaleRead, Own, LosesWrite, Data;
    s' := EvictAndRead(Do(s, SyncClear(t)), s1, u, i, blk);
  }

  /** A stale read follows this clear without another loss. */
  ghost predicate Observable(s: System, t: Tid)
    requires Enabled(s, SyncClear(t))
  {
    exists s', u :: Leads(Do(s, SyncClear(t)), s') && StaleRead(s', u)
  }

  lemma {:induction false} NoStaleReads(s: System, s': System, u: Tid)
    requires Own(s) && Data(s) && Leads(s, s')
    ensures !StaleRead(s', u)
  {
    var actions :| Runs(s, actions) && LossFree(s, actions) && After(s, actions) == s';
    RunKeepsData(s, actions);
    hide Runs, LossFree, After;
    if u in s'.pc && s'.pc[u].ReadOut? {
      var p := s'.pc[u];
      assert s'.c.bufs[p.i].usr == Some(u) && Holds(s'.c.bufs[p.i], p.blk);
      assert DataOk(s'.c.bufs[p.i], PhaseOf(s', p.i), s'.disk) && FlagsOk(s'.c.bufs[p.i], PhaseOf(s', p.i));
    }
  }

  /** Main result: in a sound state, clearing DIRTY can be observed by a stale read exactly when the
      buffer has changed since it was written to the device. */
  lemma {:induction false} ObservableIffLosesWrite(s: System, t: Tid)
    requires Own(s) && Data(s) && Enabled(s, SyncClear(t))
    ensures Observable(s, t) <==> LosesWrite(s)
  {
    if LosesWrite(s) {
      var s', u := LossIsObservable(s, t);
    } else {
      ClearIsSoundIff(s, t);
      if Observable(s, t) {
        var s', u :| Leads(Do(s, SyncClear(t)), s') && StaleRead(s', u);
        NoStaleReads(Do(s, SyncClear(t)), s', u);
      }
    }
  }

  // ----------------------------------------------------------------------------- it happens

  /** A system of one buffer, one block and threads 0 and 1, the latter not in a call. */
  function Tiny(b: Buf, p0: Phase, lock: Lock, io: seq<nat>, image: seq<Byte>, disk: seq<Byte>, clock: nat): System {
    System(BufferCache.State([b], [0], io, image), map[0 := p0, 1 := Outside], lock, [disk], [clock], clock)
  }

  function Slot(usr: Option<Tid>, dirty: bool, d: seq<Byte>): Buf {
    Buf(0, usr.Some?, false, dirty, false, usr, d)
  }

  lemma {:induction false} TinyShape(
      b: Buf, p0: Phase, lock: Lock, io: seq<nat>, image: seq<Byte>, disk: seq<Byte>, clock: nat)
    requires |b.data| == 512 && |image| == 512 && io <= [0] && (lock.Syncing? ==> lock.todo == [0])
    requires (Holding(p0) ==> p0.i == 0) && WholeBlock(p0)
    ensures var s := Tiny(b, p0, lock, io, image, disk, clock); Shape(s) && Shaped(s.c)
  {
  }

  /** Thread 0 obtains the only buffer to write `d`, first unused and then with block 0 in it. */
  lemma {:induction false} TinyObtain(
      s0: System, b: Buf, io: seq<nat>, image: seq<Byte>, disk: seq<Byte>, clock: nat, d: seq<Byte>)
    requires |b.data| == 512 && |image| == 512 && |d| == 512 && io <= [0]
    requires b == NewBuf() || b == Slot(None, b.dirty, b.data)
    requires Leads(s0, Tiny(b, Outside, Free, io, image, disk, clock))
    ensures Leads(s0, Tiny(Slot(Some(0), b.dirty, b.data), WriteCopy(0, 0, d), Free, io, image, disk, clock))
  {
    hide Leads;
    var s := Tiny(b, Outside, Free, io, image, disk, clock);
    TinyShape(b, Outside, Free, io, image, disk, clock);
    assert TryGet(s.c, 0, 0).1 == if b.unused then Fresh(0) else Hit(0);
    hide Shape, Shaped;
    LeadsStep(s0, s, Obtain(0, 0, Some(d)));
    assert Do(s, Obtain(0, 0, Some(d))) ==
      Tiny(Slot(Some(0), b.dirty, b.data), WriteCopy(0, 0, d), Free, io, image, disk, clock);
  }

  /** Thread 0 completes its copy. */
  lemma {:induction false} TinySettle(
      s0: System, b: Buf, lock: Lock, io: seq<nat>, image: seq<Byte>, disk: seq<Byte>, clock: nat, d: seq<Byte>)
    requires |b.data| == 512 && |image| == 512 && |d| == 512 && io <= [0] && (lock.Free? || lock.todo == [0])
    requires Leads(s0, Tiny(b, WriteCopy(0, 0, d), lock, io, image, disk, clock))
    ensures Leads(s0, Tiny(b.(data := d), WriteMark(0, 0), lock, io, image, d, clock))
  {
    hide Leads;
    var s := Tiny(b, WriteCopy(0, 0, d), lock, io, image, disk, clock);
    TinyShape(b, WriteCopy(0, 0, d), lock, io, image, disk, clock);
    hide Shape, Shaped;
    LeadsStep(s0, s, Settle(0));
    assert Do(s, Settle(0)) == Tiny(b.(data := d), WriteMark(0, 0), lock, io, image, d, clock);
  }

  /** Thread 0 sets DIRTY. */
  lemma {:induction false} TinyMark(
      s0: System, b: Buf, lock: Lock, io: seq<nat>, image: seq<Byte>, disk: seq<Byte>, clock: nat)
    requires |b.data| == 512 && |image| == 512 && io <= [0] && (lock.Free? || lock.todo == [0])
    requires Leads(s0, Tiny(b, WriteMark(0, 0), lock, io, image, disk, clock))
    ensures Leads(s0, Tiny(b.(dirty := true), WriteQueue(0, 0), lock, io, image, disk, clock))
  {
    hide Leads;
    var s := Tiny(b, WriteMark(0, 0), lock, io, image, disk, clock);
    TinyShape(b, WriteMark(0, 0), lock, io, image, disk, clock);
    hide Shape, Shaped;
    LeadsStep(s0, s, Mark(0));
    assert Do(s, Mark(0)) == Tiny(b.(dirty := true), WriteQueue(0, 0), lock, io, image, disk, clock);
  }

  /** Thread 0 queues the buffer. */
  lemma {:induction false} TinyQueue(s0: System, b: Buf, image: seq<Byte>, disk: seq<Byte>, clock: nat)
    requires |b.data| == 512 && |image| == 512
    requires Leads(s0, Tiny(b, WriteQueue(0, 0), Free, [], image, disk, clock))
    ensures Leads(s0, Tiny(b, Leaving(0, 0), Free, [0], image, disk, clock))
  {
    hide Leads;
    var s := Tiny(b, WriteQueue(0, 0), Free, [], image, disk, clock);
    TinyShape(b, WriteQueue(0, 0), Free, [], image, disk, clock);
    hide Shape, Shaped;
    LeadsStep(s0, s, Enqueue(0));
    assert Do(s, Enqueue(0)) == Tiny(b, Leaving(0, 0), Free, [0], image, disk, clock);
  }

  /** Thread 0 releases the buffer. */
  lemma {:induction false} TinyRelease(s0: System, d: seq<Byte>, image: seq<Byte>, disk: seq<Byte>, clock: nat)
    requires |d| == 512 && |image| == 512
    requires Leads(s0, Tiny(Slot(Some(0), true, d), Leaving(0, 0), Free, [0], image, disk, clock))
    ensures Leads(s0, Tiny(Slot(None, true, d), Outside, Free, [0], image, disk, clock + 1))
  {
    hide Leads;
    var s := Tiny(Slot(Some(0), true, d), Leaving(0, 0), Free, [0], image, disk, clock);
    TinyShape(Slot(Some(0), true, d), Leaving(0, 0), Free, [0], image, disk, clock);
    hide Shape, Shaped;
    LeadsStep(s0, s, LetGo(0));
    assert Do(s, LetGo(0)) == Tiny(Slot(None, true, d), Outside, Free, [0], image, disk, clock + 1);
  }

  /** Thread 1 begins a sync and writes the buffer to the device while thread 0 copies into it. */
  lemma {:induction false} TinySync(
      s0: System, was: seq<Byte>, image: seq<Byte>, disk: seq<Byte>, clock: nat, d: seq<Byte>)
    requires |was| == 512 && |image| == 512 && |d| == 512
    requires Leads(s0, Tiny(Slot(Some(0), true, was), WriteCopy(0, 0, d), Free, [0], image, disk, clock))
    ensures Leads(
      s0, Tiny(Slot(Some(0), true, was), WriteCopy(0, 0, d), Syncing(1, [0], 0, true), [0], was, disk, clock))
  {
    hide Leads;
    var b := Slot(Some(0), true, was);
    var s := Tiny(b, WriteCopy(0, 0, d), Free, [0], image, disk, clock);
    var s1 := Tiny(b, WriteCopy(0, 0, d), Syncing(1, [0], 0, false), [0], image, disk, clock);
    TinyShape(b, WriteCopy(0, 0, d), Free, [0], image, disk, clock);
    TinyShape(b, WriteCopy(0, 0, d), Syncing(1, [0], 0, false), [0], image, disk, clock);
    assert PutBlock(image, 0, was) == was && Blocks(image) == 1;
    hide Shape, Shaped, PutBlock;
    LeadsStep(s0, s, SyncBegin(1));
    assert Do(s, SyncBegin(1)) == s1;
    LeadsStep(s0, s1, SyncWrite(1, was));
    assert Do(s1, SyncWrite(1, was)) ==
      Tiny(b, WriteCopy(0, 0, d), Syncing(1, [0], 0, true), [0], was, disk, clock);
  }

  lemma {:induction false} TinyInitial(a: seq<Byte>)
    requires |a| == 512
    ensures Initial(Tiny(NewBuf(), Outside, Free, [], a, a, 0))
  {
    assert BlockAt(a, 0) == a;
  }

  /** Thread 0 writes `b` and then `c` to the only block; a sync by thread 1 writes `b` to the device
      just before the copy of `c` and is about to clear the DIRTY flag just set: a losing step. */
  lemma {:induction false} OverlapReachesLoss(a: seq<Byte>, b: seq<Byte>, c: seq<Byte>)
    requires |a| == 512 && |b| == 512 && |c| == 512
    ensures Leads(Tiny(NewBuf(), Outside, Free, [], a, a, 0),
                  Tiny(Slot(Some(0), true, c), WriteQueue(0, 0), Syncing(1, [0], 0, true), [0], b, c, 1))
  {
    var s0 := Tiny(NewBuf(), Outside, Free, [], a, a, 0);
    LeadsNowhere(s0);
    hide Leads, Tiny;
    TinyObtain(s0, NewBuf(), [], a, a, 0, b);
    TinySettle(s0, Slot(Some(0), false, NewBuf().data), Free, [], a, a, 0, b);
    TinyMark(s0, Slot(Some(0), false, b), Free, [], a, b, 0);
    TinyQueue(s0, Slot(Some(0), true, b), a, b, 0);
    TinyRelease(s0, b, a, b, 0);
    TinyObtain(s0, Slot(None, true, b), [0], a, b, 1, c);
    TinySync(s0, b, a, b, 1, c);
    TinySettle(s0, Slot(Some(0), true, b), Syncing(1, [0], 0, true), [0], b, b, 1, c);
    TinyMark(s0, Slot(Some(0), true, c), Syncing(1, [0], 0, true), [0], b, c, 1);
  }

  lemma {:induction false} LeadsKeepsSound(s0: System, s: System)
    requires Initial(s0) && Leads(s0, s)
    ensures Own(s) && Data(s)
  {
    var actions :| Runs(s0, actions) && LossFree(s0, actions) && After(s0, actions) == s;
    InitialIsSound(s0);
    RunKeepsData(s0, actions);
  }

  /** So from a fresh cache there is a run that loses a write: a state reached without a loss, whose
      next step leads to a stale read. */
  lemma {:induction false} OverlappedSyncLosesWrite(a: seq<Byte>, b: seq<Byte>, c: seq<Byte>)
    requires |a| == 512 && |b| == 512 && |c| == 512 && b != c
    ensures var s0 := Tiny(NewBuf(), Outside, Free, [], a, a, 0);
      var s := Tiny(Slot(Some(0), true, c), WriteQueue(0, 0), Syncing(1, [0], 0, true), [0], b, c, 1);
      Initial(s0) && Leads(s0, s) && Enabled(s, SyncClear(1)) && Observable(s, 1)
  {
    var s0 := Tiny(NewBuf(), Outside, Free, [], a, a, 0);
    var s := Tiny(Slot(Some(0), true, c), WriteQueue(0, 0), Syncing(1, [0], 0, true), [0], b, c, 1);
    TinyInitial(a);
    OverlapReachesLoss(a, b, c);
    TinyShape(Slot(Some(0), true, c), WriteQueue(0, 0), Syncing(1, [0], 0, true), [0], b, c, 1);
    assert BlockAt(b, 0) == b && Blocks(b) == 1;
    assert LosesWrite(s) && Enabled(s, SyncClear(1));
    LeadsKeepsSound(s0, s);
    hide Leads, LosesWrite, Tiny, Observable;
    ObservableIffLosesWrite(s, 1);
  }

  // ----------------------------------------------------------------------------- the PANIC

  /** A cache of one buffer over two blocks, thread 0 reading block 0. */
  function OneBuffer(b: Buf, p0: Phase, p1: Phase, lock: Lock, image: seq<Byte>): System {
    System(BufferCache.State([b], [0], [], image), map[0 := p0, 1 := p1], lock,
           seq(2, k requires 0 <= k < 2 => if k < Blocks(image) then BlockAt(image, k) else []), [0], 0)
  }

  function Held(): Buf { NewBuf().(busy := true, unused := false, usr := Some(0)) }

  lemma {:induction false} OneBufferShape(b: Buf, p0: Phase, p1: Phase, lock: Lock, image: seq<Byte>)
    requires |image| == 1024 && |b.data| == 512 && (lock.Syncing? ==> lock.todo == [] && !lock.wrote)
    requires (Holding(p0) ==> p0.i == 0) && (Holding(p1) ==> p1.i == 0) && WholeBlock(p0) && WholeBlock(p1)
    ensures var s := OneBuffer(b, p0, p1, lock, image); Shape(s) && Shaped(s.c)
  {
  }

  lemma {:induction false} TakeOnly(image: seq<Byte>)
    requires |image| == 1024
    ensures var s := OneBuffer(NewBuf(), Outside, Outside, Free, image);
      Enabled(s, Obtain(0, 0, None)) &&
      Do(s, Obtain(0, 0, None)) == OneBuffer(Held(), ReadCheck(0, 0), Outside, Free, image)
  {
    var s := OneBuffer(NewBuf(), Outside, Outside, Free, image);
    OneBufferShape(NewBuf(), Outside, Outside, Free, image);
    assert [NewBuf()][0 := Held()] == [Held()];
    assert TryGet(s.c, 0, 0) == (s.c.(bufs := [Held()]), Fresh(0));
    assert s.pc[0 := ReadCheck(0, 0)] == map[0 := ReadCheck(0, 0), 1 := Outside];
  }

  /** While thread 0 holds the buffer, a pass for block 1 finds nothing. */
  lemma {:induction false} NothingLeft(p1: Phase, image: seq<Byte>, busy: Phase, otherwise: Phase)
    requires |image| == 1024 && !Holding(p1) && WholeBlock(p1)
    ensures var s := OneBuffer(Held(), ReadCheck(0, 0), p1, Free, image);
      Shape(s) && Take(s, 1, 1, None, busy, otherwise) == OneBuffer(Held(), ReadCheck(0, 0), otherwise, Free, image)
  {
    var s := OneBuffer(Held(), ReadCheck(0, 0), p1, Free, image);
    OneBufferShape(Held(), ReadCheck(0, 0), p1, Free, image);
    assert TryGet(s.c, 1, 1).1 == Nothing;
    assert s.pc[1 := otherwise] == map[0 := ReadCheck(0, 0), 1 := otherwise];
  }

  lemma {:induction false} SyncNothing(image: seq<Byte>)
    requires |image| == 1024
    ensures var s := OneBuffer(Held(), ReadCheck(0, 0), NoBuffer(1, None), Free, image);
      var s1 := OneBuffer(Held(), ReadCheck(0, 0), NoBuffer(1, None), Syncing(1, [], 0, false), image);
      && Enabled(s, SyncBegin(1)) && Do(s, SyncBegin(1)) == s1
      && Enabled(s1, SyncEnd(1))
      && Do(s1, SyncEnd(1)) == OneBuffer(Held(), ReadCheck(0, 0), SecondPass(1, None), Free, image)
  {
    OneBufferShape(Held(), ReadCheck(0, 0), NoBuffer(1, None), Free, image);
    OneBufferShape(Held(), ReadCheck(0, 0), NoBuffer(1, None), Syncing(1, [], 0, false), image);
  }

  /** With the only buffer held for block 0, a request for block 1 ends in the PANIC although the
      device has both blocks and there is nothing to write. */
  lemma {:induction false} HeldBufferPanics(image: seq<Byte>)
    requires |image| == 1024
    ensures var s0 := OneBuffer(NewBuf(), Outside, Outside, Free, image);
      && Initial(s0) && |s0.disk| == 2
      && Leads(s0, OneBuffer(Held(), ReadCheck(0, 0), Panicked, Free, image))
  {
    var s0 := OneBuffer(NewBuf(), Outside, Outside, Free, image);
    assert Initial(s0);
    LeadsNowhere(s0);
    TakeOnly(image);
    NothingLeft(Outside, image, Waiting(1, None), NoBuffer(1, None));
    SyncNothing(image);
    NothingLeft(SecondPass(1, None), image, SecondPass(1, None), Panicked);
    hide Leads, Initial, Take, Held;
    LeadsStep(s0, s0, Obtain(0, 0, None));
    LeadsStep(s0, OneBuffer(Held(), ReadCheck(0, 0), Outside, Free, image), Obtain(1, 1, None));
    LeadsStep(s0, OneBuffer(Held(), ReadCheck(0, 0), NoBuffer(1, None), Free, image), SyncBegin(1));
    LeadsStep(s0, OneBuffer(Held(), ReadCheck(0, 0), NoBuffer(1, None), Syncing(1, [], 0, false), image), SyncEnd(1));
    LeadsStep(s0, OneBuffer(Held(), ReadCheck(0, 0), SecondPass(1, None), Free, image), Again(1));
  }
}
