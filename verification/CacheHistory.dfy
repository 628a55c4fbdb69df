/** The interleavings of src/bbuf.c seen from outside: what the calls made so far, by themselves,
    say about the disk, about who has been served and about which buffer is the oldest. */
module CacheHistory {
  import opened Wrappers
  import opened RamDisk
  import opened Threads
  import opened BufferCache
  import opened ConcurrentCache

  /** What a call asks for: block `blk`, to read it or to write `w`. */
  datatype Ask = Ask(blk: nat, w: Option<seq<Byte>>)

  function Init(actions: seq<Action>): seq<Action>
    requires actions != []
  {
    actions[..|actions| - 1]
  }

  function Last(actions: seq<Action>): Action
    requires actions != []
  {
    actions[|actions| - 1]
  }

  /** The latest call of thread `t`. */
  function LastAsk(actions: seq<Action>, t: Tid): Option<Ask> {
    if actions == [] then None
    else
      var a := Last(actions);
      if a.Obtain? && a.t == t then Some(Ask(a.blk, a.w)) else LastAsk(Init(actions), t)
  }

  /** The latest call of `t` has been answered: its data copied in for a write, or for a read the data
      copied out or refused. */
  predicate Served(actions: seq<Action>, t: Tid) {
    if actions == [] then true
    else
      var a := Last(actions);
      if a.t == t && (a.Settle? || a.Return?) then true
      else if a.t == t && a.Obtain? then false
      else Served(Init(actions), t)
  }

  /** The disk after the writes copied in so far, each with the data its call asked for. */
  function Stored(disk: seq<seq<Byte>>, actions: seq<Action>): (r: seq<seq<Byte>>)
    ensures |r| == |disk|
  {
    if actions == [] then disk
    else
      var before, a := Stored(disk, Init(actions)), Last(actions);
      var ask := LastAsk(Init(actions), a.t);
      if a.Settle? && ask.Some? && ask.value.w.Some? && ask.value.blk < |disk|
      then before[ask.value.blk := ask.value.w.value] else before
  }

  /** Releases so far. */
  function Releases(actions: seq<Action>): nat {
    if actions == [] then 0 else Releases(Init(actions)) + (if Last(actions).LetGo? then 1 else 0)
  }

  lemma {:induction false} Snoc(actions: seq<Action>, a: Action)
    ensures Init(actions + [a]) == actions && Last(actions + [a]) == a
  {
  }

  /** A run ends with its last step. */
  lemma {:induction false} RunLast(s: System, actions: seq<Action>)
    requires actions != [] && Runs(s, actions)
    ensures Runs(s, Init(actions)) && Enabled(After(s, Init(actions)), Last(actions))
    ensures After(s, actions) == Do(After(s, Init(actions)), Last(actions))
    ensures actions == Init(actions) + [Last(actions)]
    decreases |actions|
  {
    hide Enabled, Do;
    if |actions| > 1 {
      assert actions[1..] != [] && Init(actions)[1..] == Init(actions[1..]) && Init(actions)[0] == actions[0];
      RunLast(Do(s, actions[0]), actions[1..]);
    } else {
      assert Init(actions) == [] && actions[1..] == [];
    }
  }

  // ----------------------------------------------------------------- phases follow the calls

  /** What the phase of a thread says about its latest call. */
  ghost predicate Follows(p: Phase, ask: Option<Ask>, served: bool) {
    match p
    case Outside => served
    case Panicked => ask.Some? && !served
    case Waiting(want, w) => ask == Some(Ask(want, w)) && !served
    case NoBuffer(want, w) => ask == Some(Ask(want, w)) && !served
    case SecondPass(want, w) => ask == Some(Ask(want, w)) && !served
    case ReadCheck(i, blk) => ask == Some(Ask(blk, None)) && !served
    case ReadSync(i, blk) => ask == Some(Ask(blk, None)) && !served
    case ReadFill(i, blk) => ask == Some(Ask(blk, None)) && !served
    case ReadOut(i, blk, status) => ask == Some(Ask(blk, None)) && !served
    case WriteCopy(i, blk, d) => ask == Some(Ask(blk, Some(d))) && !served
    case WriteMark(i, blk) => ask.Some? && ask.value.blk == blk && ask.value.w.Some? && served
    case WriteQueue(i, blk) => ask.Some? && ask.value.blk == blk && ask.value.w.Some? && served
    case Leaving(i, blk) => ask.Some? && ask.value.blk == blk && served
  }

  ghost predicate AllFollow(s: System, actions: seq<Action>) {
    forall t :: t in s.pc ==> Follows(s.pc[t], LastAsk(actions, t), Served(actions, t))
  }

  /** A pass of `get_buffer` leaves a phase that belongs to the call. */
  lemma {:induction false} TakeFollows(
      s: System, t: Tid, blk: nat, w: Option<seq<Byte>>, busy: Phase, otherwise: Phase)
    requires Shape(s) && t in s.pc
    requires Follows(busy, Some(Ask(blk, w)), false) && Follows(otherwise, Some(Ask(blk, w)), false)
    ensures var s' := Take(s, t, blk, w, busy, otherwise);
      && s'.disk == s.disk && s'.pc == s.pc[t := s'.pc[t]] && s'.stamp == s.stamp && s'.clock == s.clock
      && Follows(s'.pc[t], Some(Ask(blk, w)), false)
  {
    hide TryGet, Shape;
  }

  lemma {:induction false} PassFollows(s: System, a: Action, ask: Option<Ask>, served: bool)
    requires Enabled(s, a) && Follows(s.pc[a.t], ask, served) && (a.Obtain? || a.Again?)
    ensures var s' := Do(s, a);
      && s'.pc == s.pc[a.t := s'.pc[a.t]] && s'.disk == s.disk
      && Follows(s'.pc[a.t], if a.Obtain? then Some(Ask(a.blk, a.w)) else ask, false)
  {
    hide Shape, Take;
    if a.Obtain? {
      TakeFollows(s, a.t, a.blk, a.w, Waiting(a.blk, a.w), NoBuffer(a.blk, a.w));
    } else {
      TakeFollows(s, a.t, s.pc[a.t].want, s.pc[a.t].w, s.pc[a.t], Panicked);
    }
  }

  lemma {:induction false} OtherFollows(s: System, a: Action, ask: Option<Ask>, served: bool)
    requires Enabled(s, a) && Follows(s.pc[a.t], ask, served) && !a.Obtain? && !a.Again?
    ensures var s' := Do(s, a);
      && s'.pc == s.pc[a.t := s'.pc[a.t]]
      && Follows(s'.pc[a.t], ask, served || a.Settle? || a.Return?)
  {
    hide Shape, Take, Update, Queue, Release, PutBlock;
  }

  /** Only the acting thread moves, and its phase still follows its calls. */
  lemma {:induction false} StepFollows(s: System, actions: seq<Action>, a: Action)
    requires Enabled(s, a) && Follows(s.pc[a.t], LastAsk(actions, a.t), Served(actions, a.t))
    ensures var s', more := Do(s, a), actions + [a];
      && s'.pc == s.pc[a.t := s'.pc[a.t]]
      && Follows(s'.pc[a.t], LastAsk(more, a.t), Served(more, a.t))
  {
    Snoc(actions, a);
    hide Do, Shape;
    if a.Obtain? || a.Again? {
      PassFollows(s, a, LastAsk(actions, a.t), Served(actions, a.t));
      assert a.Again? ==> !Served(actions, a.t);
    } else {
      OtherFollows(s, a, LastAsk(actions, a.t), Served(actions, a.t));
    }
  }

  lemma {:induction false} StepAllFollow(s: System, actions: seq<Action>, a: Action)
    requires Enabled(s, a) && AllFollow(s, actions)
    ensures AllFollow(Do(s, a), actions + [a])
  {
    StepFollows(s, actions, a);
    Snoc(actions, a);
    hide Enabled, Do, Follows;
    forall t | t in s.pc && t != a.t
      ensures LastAsk(actions + [a], t) == LastAsk(actions, t) && Served(actions + [a], t) == Served(actions, t)
    {
    }
  }

  lemma {:induction false} RunAllFollow(s0: System, actions: seq<Action>)
    requires Initial(s0) && Runs(s0, actions)
    ensures AllFollow(After(s0, actions), actions)
    decreases |actions|
  {
    if actions != [] {
      hide Initial, Runs, Do, Enabled, AllFollow;
      RunLast(s0, actions);
      RunAllFollow(s0, Init(actions));
      hide Enabled, Do, AllFollow, Runs, After;
      StepAllFollow(After(s0, Init(actions)), Init(actions), Last(actions));
    }
  }

  // -------------------------------------------------------------------------- the main results

  /** Main result on calls: in every interleaving a thread is outside again only after its latest call
      was answered, and it is answered once: the answering steps are taken only by a thread not
      served yet, for the block and with the data of its call. */
  lemma {:induction false} CallsAreServed(s0: System, actions: seq<Action>, t: Tid)
    requires Initial(s0) && Runs(s0, actions) && t in After(s0, actions).pc
    ensures var s := After(s0, actions);
      && (s.pc[t].Outside? ==> Served(actions, t))
      && (Enabled(s, Settle(t)) ==>
            !Served(actions, t) && LastAsk(actions, t) == Some(Ask(s.pc[t].blk, Some(s.pc[t].d))))
      && (Enabled(s, Return(t)) ==> !Served(actions, t) && LastAsk(actions, t) == Some(Ask(s.pc[t].blk, None)))
  {
    RunAllFollow(s0, actions);
    hide Initial, Runs, After, Shape;
  }

  lemma {:induction false} SettleStores(s: System, actions: seq<Action>, a: Action, disk: seq<seq<Byte>>)
    requires Enabled(s, a) && AllFollow(s, actions) && s.disk == Stored(disk, actions)
    ensures Do(s, a).disk == Stored(disk, actions + [a])
  {
    Snoc(actions, a);
    hide Shape, Take;
    assert Follows(s.pc[a.t], LastAsk(actions, a.t), Served(actions, a.t));
    if a.Obtain? || a.Again? { PassFollows(s, a, LastAsk(actions, a.t), Served(actions, a.t)); }
  }

  /** Main result on the disk: it is what the copies made so far leave, each with the block and the
      data of its call, and nothing else moves it. */
  lemma {:induction false} DiskIsHistory(s0: System, actions: seq<Action>)
    requires Initial(s0) && Runs(s0, actions)
    ensures After(s0, actions).disk == Stored(s0.disk, actions)
    decreases |actions|
  {
    if actions != [] {
      hide Initial, Follows, Runs, Stored, Do, Enabled;
      RunLast(s0, actions);
      DiskIsHistory(s0, Init(actions));
      RunAllFollow(s0, Init(actions));
      hide Enabled, Do, AllFollow, Runs, After, Stored;
      SettleStores(After(s0, Init(actions)), Init(actions), Last(actions), s0.disk);
    }
  }

  /** Reads against the history of the calls alone: in every interleaving that loses no write a read
      about to return OK returns what the writes copied in so far left in the block it asked for. */
  lemma {:induction false} ReadsReturnHistory(s0: System, actions: seq<Action>, t: Tid)
    requires Initial(s0) && Runs(s0, actions) && LossFree(s0, actions) && Enabled(After(s0, actions), Return(t))
    ensures var s, ask, now := After(s0, actions), LastAsk(actions, t), Stored(s0.disk, actions);
      && ask.Some? && ask.value.w == None
      && (s.pc[t].status == 0 ==>
            ask.value.blk < |now| && s.c.bufs[s.pc[t].i].data == now[ask.value.blk])
      && (s.pc[t].status == -1 ==> ask.value.blk >= |now|)
  {
    ReadsSeeLatestWrite(s0, actions, t);
    DiskIsHistory(s0, actions);
    CallsAreServed(s0, actions, t);
    hide Initial, Runs, After, LossFree, Stored, Shape;
  }

  /** The step that answers a call. */
  function AnswerStep(t: Tid, w: Option<seq<Byte>>): Action { if w.Some? then Settle(t) else Return(t) }

  /** The call made at step `i` was answered at step `k`. */
  ghost predicate AnsweredAt(actions: seq<Action>, t: Tid, ask: Ask, i: nat, k: nat) {
    i < k < |actions| && actions[k] == AnswerStep(t, ask.w) && LastAsk(actions[..k], t) == Some(ask)
  }

  /** The call was answered after step `i`, or the call is still the latest of its thread
      and not served. */
  ghost predicate AnsweredOrPending(actions: seq<Action>, t: Tid, ask: Ask, i: nat) {
    || (LastAsk(actions, t) == Some(ask) && !Served(actions, t))
    || exists k: nat :: AnsweredAt(actions, t, ask, i, k)
  }

  lemma {:induction false} AnsweredStays(actions: seq<Action>, a: Action, t: Tid, ask: Ask, i: nat, k: nat)
    requires AnsweredAt(actions, t, ask, i, k)
    ensures AnsweredAt(actions + [a], t, ask, i, k)
  {
    assert (actions + [a])[..k] == actions[..k];
  }

  /** A pending call stays pending until it is answered. */
  lemma {:induction false} LastStep(s: System, actions: seq<Action>, a: Action, t: Tid, ask: Ask)
    requires AllFollow(s, actions) && Enabled(s, a)
    requires LastAsk(actions, t) == Some(ask) && !Served(actions, t)
    ensures a != AnswerStep(t, ask.w) ==> LastAsk(actions + [a], t) == Some(ask) && !Served(actions + [a], t)
  {
    Snoc(actions, a);
    hide Shape;
    if a.t == t { assert Follows(s.pc[t], LastAsk(actions, t), Served(actions, t)); }
  }

  lemma {:induction false} AnsweredNow(actions: seq<Action>, t: Tid, ask: Ask, i: nat)
    requires i < |actions| && LastAsk(actions, t) == Some(ask)
    ensures AnsweredAt(actions + [AnswerStep(t, ask.w)], t, ask, i, |actions|)
  {
    assert (actions + [AnswerStep(t, ask.w)])[..|actions|] == actions;
  }

  lemma {:induction false} AnsweredOrPendingStep(s: System, actions: seq<Action>, a: Action, t: Tid, ask: Ask, i: nat)
    requires AllFollow(s, actions) && Enabled(s, a) && i < |actions| && AnsweredOrPending(actions, t, ask, i)
    ensures AnsweredOrPending(actions + [a], t, ask, i)
  {
    hide AllFollow, Enabled, LastAsk, Served, AnsweredAt;
    if exists k: nat :: AnsweredAt(actions, t, ask, i, k) {
      var k: nat :| AnsweredAt(actions, t, ask, i, k);
      AnsweredStays(actions, a, t, ask, i, k);
    } else {
      LastStep(s, actions, a, t, ask);
      if a == AnswerStep(t, ask.w) { AnsweredNow(actions, t, ask, i); }
    }
  }

  lemma {:induction false} JustAsked(actions: seq<Action>, a: Action)
    requires a.Obtain?
    ensures AnsweredOrPending(actions + [a], a.t, Ask(a.blk, a.w), |actions|)
  {
    Snoc(actions, a);
  }

  lemma {:induction false} RunAnsweredOrPending(s0: System, actions: seq<Action>, t: Tid, i: nat)
    requires Initial(s0) && Runs(s0, actions)
    requires i < |actions| && actions[i].Obtain? && actions[i].t == t
    ensures AnsweredOrPending(actions, t, Ask(actions[i].blk, actions[i].w), i)
    decreases |actions|
  {
    hide Initial, Runs, After, AllFollow, Do, Enabled, AnsweredOrPending, LastAsk, Served;
    RunLast(s0, actions);
    var before, a := Init(actions), Last(actions);
    var ask := Ask(actions[i].blk, actions[i].w);
    if i < |before| {
      RunAnsweredOrPending(s0, before, t, i);
      RunAllFollow(s0, before);
      AnsweredOrPendingStep(After(s0, before), before, a, t, ask, i);
    } else {
      JustAsked(before, a);
    }
  }

  lemma {:induction false} RunPrefix(s0: System, actions: seq<Action>, k: nat)
    requires Runs(s0, actions) && k <= |actions|
    ensures Runs(s0, actions[..k])
    decreases |actions|
  {
    hide Enabled, Do;
    if k == |actions| {
      assert actions[..k] == actions;
    } else {
      RunLast(s0, actions);
      RunPrefix(s0, Init(actions), k);
      assert Init(actions)[..k] == actions[..k];
    }
  }

  /** Between a call and the next time its thread is outside, the call is answered: a write is on the
      disk right after that. */
  lemma {:induction false} OutsideAfterAnswer(s0: System, actions: seq<Action>, t: Tid, i: nat) returns (k: nat)
    requires Initial(s0) && Runs(s0, actions) && t in After(s0, actions).pc && After(s0, actions).pc[t].Outside?
    requires i < |actions| && actions[i].Obtain? && actions[i].t == t
    ensures i < k < |actions| && actions[k] == AnswerStep(t, actions[i].w)
    ensures LastAsk(actions[..k], t) == Some(Ask(actions[i].blk, actions[i].w))
    ensures actions[i].w.Some? && actions[i].blk < |s0.disk| ==>
      Runs(s0, actions[..k + 1]) && var disk := After(s0, actions[..k + 1]).disk;
      actions[i].blk < |disk| && disk[actions[i].blk] == actions[i].w.value
  {
    var ask := Ask(actions[i].blk, actions[i].w);
    RunAnsweredOrPending(s0, actions, t, i);
    CallsAreServed(s0, actions, t);
    hide Initial, Follows, Runs, After, Shape;
    k :| AnsweredAt(actions, t, ask, i, k);
    RunPrefix(s0, actions, k + 1);
    DiskIsHistory(s0, actions[..k + 1]);
    assert Init(actions[..k + 1]) == actions[..k] && Last(actions[..k + 1]) == actions[k];
  }

  // ------------------------------------------------------------------------------ age of buffers

  /** When buffer `i` was last released: the number of that release, 0 for never. */
  ghost function LastRelease(s0: System, actions: seq<Action>, i: nat): nat
    requires Runs(s0, actions)
    decreases |actions|
  {
    if actions == [] then 0
    else
      RunLast(s0, actions);
      var s, a := After(s0, Init(actions)), Last(actions);
      if a.LetGo? && s.pc[a.t].i == i then Releases(actions) else LastRelease(s0, Init(actions), i)
  }

  lemma {:induction false} StampStep(s: System, a: Action)
    requires Enabled(s, a)
    ensures var s' := Do(s, a);
      if a.LetGo?
      then s'.clock == s.clock + 1 && s.pc[a.t].i < |s.stamp| && s'.stamp == s.stamp[s.pc[a.t].i := s'.clock]
      else s'.clock == s.clock && s'.stamp == s.stamp
  {
    hide TryGet;
  }

  /** The stamps by which `ReassignsOldestIdle` compares buffers are their last releases. */
  lemma {:induction false} StampIsLastRelease(s0: System, actions: seq<Action>, i: nat)
    requires Initial(s0) && Runs(s0, actions) && i < |s0.c.bufs|
    ensures var s := After(s0, actions);
      && |s.stamp| == |s0.c.bufs| && s.clock == Releases(actions)
      && s.stamp[i] == LastRelease(s0, actions, i) <= Releases(actions)
    decreases |actions|
  {
    if actions != [] {
      hide Initial;
      RunLast(s0, actions);
      StampIsLastRelease(s0, Init(actions), i);
      hide Runs, After;
      var s, a := After(s0, Init(actions)), Last(actions);
      StampStep(s, a);
      hide Do, Enabled;
    }
  }

  // ------------------------------------------------------------------------------------ failures

  /** A failure is remembered: by a sync under way that counted one, or by a read refused with -2. */
  ghost predicate Failed(s: System) {
    (s.lock.Syncing? && s.lock.failed > 0) || exists t :: t in s.pc && s.pc[t].ReadOut? && s.pc[t].status == -2
  }

  /** A dirty buffer with a block the device lacks stays as it is. */
  ghost predicate Unwritable(c: BufferCache.State, i: nat) {
    i < |c.bufs| && c.bufs[i].dirty && c.bufs[i].blkno >= Blocks(c.image)
  }

  lemma {:induction false} PassKeepsUnwritable(s: System, t: Tid, blk: nat, i: nat)
    requires Own(s) && Unwritable(s.c, i)
    ensures Unwritable(TryGet(s.c, blk, t).0, i)
  {
    if Obtains(s, blk, t) {
      ObtainIsExclusive(s, t, blk);
      hide Own;
    }
  }

  lemma {:induction false} StepKeepsUnwritable(s: System, a: Action, i: nat)
    requires Own(s) && Enabled(s, a) && Unwritable(s.c, i)
    ensures Unwritable(Do(s, a).c, i)
  {
    if a.Obtain? {
      PassKeepsUnwritable(s, a.t, a.blk, i);
    } else if a.Again? {
      PassKeepsUnwritable(s, a.t, s.pc[a.t].want, i);
    }
    hide TryGet, Own;
  }

  lemma {:induction false} NoNewFailure(s: System, a: Action)
    requires Own(s) && Enabled(s, a) && !Failed(s) && !(a.SyncSkip? && s.c.bufs[s.lock.todo[0]].dirty)
    ensures !Failed(Do(s, a))
  {
    hide TryGet, Own;
  }

  lemma {:induction false} StepFailsPoisoned(s: System, a: Action)
    requires Own(s) && Enabled(s, a) && (Failed(s) ==> Poisoned(s.c))
    ensures Failed(Do(s, a)) ==> Poisoned(Do(s, a).c)
  {
    var s' := Do(s, a);
    if a.SyncSkip? && s.c.bufs[s.lock.todo[0]].dirty { assert Unwritable(s.c, s.lock.todo[0]); }
    if Poisoned(s.c) {
      var i :| 0 <= i < |s.c.bufs| && s.c.bufs[i].dirty && s.c.bufs[i].blkno >= Blocks(s.c.image);
      StepKeepsUnwritable(s, a, i);
      assert Unwritable(s'.c, i);
    } else {
      NoNewFailure(s, a);
    }
  }

  /** Failures have one cause: in every interleaving, lost writes or not, a sync counts a failure and a
      read is refused with -2 only while some buffer is dirty with a block the device lacks. */
  lemma {:induction false} FailsOnlyPoisoned(s0: System, actions: seq<Action>)
    requires Initial(s0) && Runs(s0, actions)
    ensures Failed(After(s0, actions)) ==> Poisoned(After(s0, actions).c)
    decreases |actions|
  {
    if actions != [] {
      RunLast(s0, actions);
      FailsOnlyPoisoned(s0, Init(actions));
      InitialIsSound(s0);
      RunKeepsOwn(s0, Init(actions));
      hide Initial, Runs, After, Own, Enabled, Do, Failed, Poisoned;
      StepFailsPoisoned(After(s0, Init(actions)), Last(actions));
    }
  }

  // ------------------------------------------------------------------------------------ progress

  /** What a thread in a call does next while the device lock is free. */
  function OwnStep(p: Phase, t: Tid): Action
    requires !p.Outside? && !p.Panicked?
  {
    match p
    case Waiting(want, w) => Obtain(t, want, w)
    case NoBuffer(want, w) => SyncBegin(t)
    case SecondPass(want, w) => Again(t)
    case ReadCheck(i, blk) => Check(t)
    case ReadSync(i, blk) => SyncBegin(t)
    case ReadFill(i, blk) => Fill(t)
    case ReadOut(i, blk, status) => Return(t)
    case WriteCopy(i, blk, d) => Settle(t)
    case WriteMark(i, blk) => Mark(t)
    case WriteQueue(i, blk) => Enqueue(t)
    case Leaving(i, blk) => LetGo(t)
  }

  /** What the thread in `sync_buffer` does next. */
  function SyncStep(s: System): Action
    requires Shape(s) && s.lock.Syncing?
  {
    if s.lock.wrote then SyncClear(s.lock.t)
    else if s.lock.todo == [] then SyncEnd(s.lock.t)
    else if Flushable(s.c, s.lock.todo[0]) then SyncWrite(s.lock.t, s.c.bufs[s.lock.todo[0]].data)
    else SyncSkip(s.lock.t)
  }

  /** Steps left to a call at most, not counting syncs and waiting for a busy buffer. */
  function Left(p: Phase): nat {
    match p
    case Outside => 0
    case Panicked => 0
    case Waiting(want, w) => 8
    case NoBuffer(want, w) => 7
    case SecondPass(want, w) => 6
    case ReadCheck(i, blk) => 5
    case ReadSync(i, blk) => 4
    case ReadFill(i, blk) => 3
    case ReadOut(i, blk, status) => 2
    case WriteCopy(i, blk, d) => 4
    case WriteMark(i, blk) => 3
    case WriteQueue(i, blk) => 2
    case Leaving(i, blk) => 1
  }

  /** A sync under way always has a next step, and it ends: each step visits a buffer or clears one. */
  lemma {:induction false} SyncGoesOn(s: System)
    requires Own(s) && s.lock.Syncing?
    ensures Enabled(s, SyncStep(s))
    ensures var s' := Do(s, SyncStep(s));
      || s'.lock.Free?
      || (|s'.lock.todo| == |s.lock.todo| && !s.lock.wrote && s'.lock.wrote)
      || |s'.lock.todo| < |s.lock.todo|
  {
    hide Listed, Linked, Unique, Queued;
  }

  /** No call gets stuck: with the lock free every thread in a call has a next step, which brings the
      call nearer to its end, or begins the sync it needs, or finds the buffer busy. */
  lemma {:induction false} CallGoesOn(s: System, t: Tid)
    requires Own(s) && s.lock.Free? && t in s.pc && !s.pc[t].Outside? && !s.pc[t].Panicked?
    ensures var a := OwnStep(s.pc[t], t);
      && Enabled(s, a)
      && var s' := Do(s, a);
      || Left(s'.pc[t]) < Left(s.pc[t])
      || s'.lock == Syncing(t, s.c.io, 0, false)
      || ((a.Obtain? || a.Again?) && s'.pc[t] == s.pc[t] && TryGet(s.c, s.pc[t].want, t).1.Busy?)
  {
    hide Listed, Linked, Unique, Queued, LockOk, TryGet;
  }

  /** And the end of the sync brings the call on. */
  lemma {:induction false} SyncBringsOn(s: System)
    requires s.lock.Syncing? && Enabled(s, SyncEnd(s.lock.t))
    requires s.pc[s.lock.t].NoBuffer? || s.pc[s.lock.t].ReadSync?
    ensures Left(Do(s, SyncEnd(s.lock.t)).pc[s.lock.t]) < Left(s.pc[s.lock.t])
  {
    hide Shape;
  }

  /** A copy half way is seen: a sync that comes to the buffer then puts the mixture on the device. */
  lemma {:induction false} TornCopyReachesDevice(s: System, t: Tid, d: seq<Byte>)
    requires Own(s) && Enabled(s, Scribble(t, d)) && s.lock.Syncing? && !s.lock.wrote && s.lock.todo != []
    requires s.lock.todo[0] == s.pc[t].i && Flushable(s.c, s.pc[t].i)
    ensures var s1 := Do(s, Scribble(t, d));
      && s1.c.bufs[s.pc[t].i].data == d && s1.disk == s.disk && s1.pc == s.pc
      && Enabled(s1, SyncWrite(s.lock.t, d))
      && BlockAt(Do(s1, SyncWrite(s.lock.t, d)).c.image, s.pc[t].blk) == d
  {
    var s1, b := Do(s, Scribble(t, d)), s.pc[t].blk;
    assert s.c.bufs[s.pc[t].i].blkno == b;
    assert s1.pc == s.pc;
    PutThenGet(s1.c.image, b, d, b);
    hide Listed, Unique, Queued, LockOk, BlockAt, PutBlock;
  }
}
