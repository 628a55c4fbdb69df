/** The buffer cache of src/bbuf.c used by several threads. A step is one section under the device
    lock, one of the unlocked updates a thread makes to the buffer it holds, or one step of the
    loop in `sync_buffer`, which keeps the device lock while writers go on outside it. */
module ConcurrentCache {
  import opened Wrappers
  import opened RamDisk
  import opened Threads
  import opened Queues
  import opened BufferCache

  /** Where a thread is in `bdev_read_buffer` or `bdev_write_buffer`, with its buffer and block. */
  datatype Phase =
    | Outside
    | Waiting(want: nat, w: Option<seq<Byte>>)    // found its buffer busy, will try again
    | NoBuffer(want: nat, w: Option<seq<Byte>>)   // the first pass of get_buffer found nothing
    | SecondPass(want: nat, w: Option<seq<Byte>>) // it has synced and is about to try again
    | Panicked
    | ReadCheck(i: nat, blk: nat)                 // about to look at the flags
    | ReadSync(i: nat, blk: nat)                  // found it invalid and dirty
    | ReadFill(i: nat, blk: nat)                  // about to call update_buffer
    | ReadOut(i: nat, blk: nat, status: int)      // about to copy the data out
    | WriteCopy(i: nat, blk: nat, d: seq<Byte>)   // copying the data in
    | WriteMark(i: nat, blk: nat)                 // about to set DIRTY
    | WriteQueue(i: nat, blk: nat)                // about to call cache_buffer
    | Leaving(i: nat, blk: nat)                   // about to release

  /** The thread is in `get_buffer` between two passes. */
  predicate Asking(p: Phase) { p.Waiting? || p.NoBuffer? || p.SecondPass? }

  /** The thread has reserved a buffer. */
  predicate Holding(p: Phase) { !p.Outside? && !Asking(p) && !p.Panicked? }

  predicate Writing(p: Phase) { p.WriteCopy? || p.WriteMark? || p.WriteQueue? }

  /** The device lock: free, or kept by a `sync_buffer` with buffers still to visit. `wrote` holds
      between writing the first of them to the device and clearing its DIRTY flag. */
  datatype Lock = Free | Syncing(t: Tid, todo: seq<nat>, failed: nat, wrote: bool)

  /** The cache, the threads and the lock; for the specification the disk as the completed writes
      leave it, the time of each buffer's last release (0 for never), and the clock for it. */
  datatype System = System(
    c: BufferCache.State, pc: map<Tid, Phase>, lock: Lock,
    disk: seq<seq<Byte>>, stamp: seq<nat>, clock: nat)

  /** What the holder of buffer `i` is doing; `Outside` if nobody holds it. */
  function PhaseOf(s: System, i: nat): Phase {
    if i < |s.c.bufs| && s.c.bufs[i].usr.Some? && s.c.bufs[i].usr.value in s.pc
    then s.pc[s.c.bufs[i].usr.value] else Outside
  }

  datatype Action =
    | Obtain(t: Tid, blk: nat, w: Option<seq<Byte>>)  // a first pass of get_buffer, to read or to write w
    | Again(t: Tid)                                   // a second pass, after the sync
    | Check(t: Tid)
    | Fill(t: Tid)
    | Return(t: Tid)
    | Scribble(t: Tid, d: seq<Byte>)                  // the copy in is half way
    | Settle(t: Tid)                                  // the copy in is complete
    | Mark(t: Tid)
    | Enqueue(t: Tid)
    | LetGo(t: Tid)
    | SyncBegin(t: Tid)
    | SyncSkip(t: Tid)                                // not dirty, or the device refuses the block
    | SyncWrite(t: Tid, d: seq<Byte>)
    | SyncClear(t: Tid)
    | SyncEnd(t: Tid)

  /** The data to write, if any, is a whole block. */
  predicate WholeBlock(p: Phase) {
    && (p.WriteCopy? ==> |p.d| == 512)
    && (Asking(p) ==> p.w.Some? ==> |p.w.value| == 512)
  }

  predicate Shape(s: System) {
    && Shaped(s.c) && |s.stamp| == |s.c.bufs| && |s.disk| == Blocks(s.c.image)
    && (forall t :: t in s.pc && Holding(s.pc[t]) ==> s.pc[t].i < |s.c.bufs|)
    && (forall t :: t in s.pc ==> WholeBlock(s.pc[t]))
    && (s.lock.Syncing? ==> InBounds(s.c.bufs, s.lock.todo) && (s.lock.wrote ==> s.lock.todo != []))
  }

  predicate Enabled(s: System, a: Action) {
    && Shape(s) && a.t in s.pc
    && var p := s.pc[a.t];
    match a
    case Obtain(t, blk, w) =>
      (p.Outside? || p == Waiting(blk, w)) && s.lock.Free? && (w.Some? ==> |w.value| == 512)
    case Again(t) => p.SecondPass? && s.lock.Free?
    case Check(t) => p.ReadCheck?
    case Fill(t) => p.ReadFill? && s.lock.Free?
    case Return(t) => p.ReadOut?
    case Scribble(t, d) => p.WriteCopy? && |d| == 512
    case Settle(t) => p.WriteCopy?
    case Mark(t) => p.WriteMark?
    case Enqueue(t) => p.WriteQueue? && s.lock.Free?
    case LetGo(t) => p.Leaving? && s.lock.Free?
    case SyncBegin(t) => (p.Outside? || p.NoBuffer? || p.ReadSync?) && s.lock.Free?
    case SyncSkip(t) =>
      && s.lock.Syncing? && s.lock.t == t && !s.lock.wrote && s.lock.todo != []
      && !Flushable(s.c, s.lock.todo[0])
    case SyncWrite(t, d) =>
      // a copy in that overlaps the write can put any mixture on the device
      && s.lock.Syncing? && s.lock.t == t && !s.lock.wrote && s.lock.todo != []
      && Flushable(s.c, s.lock.todo[0]) && |d| == 512
      && (d == s.c.bufs[s.lock.todo[0]].data || PhaseOf(s, s.lock.todo[0]).WriteCopy?)
    case SyncClear(t) => s.lock.Syncing? && s.lock.t == t && s.lock.wrote
    case SyncEnd(t) => s.lock.Syncing? && s.lock.t == t && !s.lock.wrote && s.lock.todo == []
  }

  /** Thread `t` changes its buffer to `b` and moves on to `p`. */
  function Local(s: System, t: Tid, b: Buf, p: Phase): System
    requires Shape(s) && t in s.pc && Holding(s.pc[t])
  {
    s.(c := s.c.(bufs := s.c.bufs[s.pc[t].i := b]), pc := s.pc[t := p])
  }

  /** One pass of `get_buffer`: the buffer is reserved, or it is busy and the thread will wait and
      try again, or there is none. */
  function Take(s: System, t: Tid, blk: nat, w: Option<seq<Byte>>, busy: Phase, otherwise: Phase): System
    requires Shape(s) && t in s.pc
  {
    var (c, got) := TryGet(s.c, blk, t);
    if got.Hit? || got.Fresh? then
      s.(c := c, pc := s.pc[t := if w.Some? then WriteCopy(got.i, blk, w.value) else ReadCheck(got.i, blk)])
    else s.(pc := s.pc[t := if got.Nothing? then otherwise else busy])
  }

  function Do(s: System, a: Action): System
    requires Enabled(s, a)
  {
    var p := s.pc[a.t];
    match a
    case Obtain(t, blk, w) => Take(s, t, blk, w, Waiting(blk, w), NoBuffer(blk, w))
    case Again(t) => Take(s, t, p.want, p.w, p, Panicked)
    case Check(t) =>
      var b := s.c.bufs[p.i];
      Local(s, t, b, if b.valid then ReadOut(p.i, p.blk, 0)
                     else if b.dirty then ReadSync(p.i, p.blk) else ReadFill(p.i, p.blk))
    case Fill(t) =>
      var (c, status) := Update(s.c, p.i);
      s.(c := c, pc := s.pc[t := ReadOut(p.i, p.blk, status)])
    case Return(t) => Local(s, t, s.c.bufs[p.i], Leaving(p.i, p.blk))
    case Scribble(t, d) => Local(s, t, s.c.bufs[p.i].(data := d), p)
    case Settle(t) =>
      var s' := Local(s, t, s.c.bufs[p.i].(data := p.d), WriteMark(p.i, p.blk));
      s'.(disk := if p.blk < |s.disk| then s.disk[p.blk := p.d] else s.disk)
    case Mark(t) => Local(s, t, s.c.bufs[p.i].(dirty := true), WriteQueue(p.i, p.blk))
    case Enqueue(t) => s.(c := Queue(s.c, p.i), pc := s.pc[t := Leaving(p.i, p.blk)])
    case LetGo(t) =>
      s.(c := Release(s.c, p.i), pc := s.pc[t := Outside],
         stamp := s.stamp[p.i := s.clock + 1], clock := s.clock + 1)
    case SyncBegin(t) => s.(lock := Syncing(t, s.c.io, 0, false))
    case SyncSkip(t) =>
      var dirty := s.c.bufs[s.lock.todo[0]].dirty;
      s.(lock := s.lock.(todo := s.lock.todo[1..], failed := if dirty then s.lock.failed + 1 else s.lock.failed))
    case SyncWrite(t, d) =>
      s.(c := s.c.(image := PutBlock(s.c.image, s.c.bufs[s.lock.todo[0]].blkno, d)), lock := s.lock.(wrote := true))
    case SyncClear(t) =>
      var i := s.lock.todo[0];
      s.(c := s.c.(bufs := s.c.bufs[i := s.c.bufs[i].(dirty := false)], io := Without(s.c.io, i)),
         lock := s.lock.(todo := s.lock.todo[1..], wrote := false))
    case SyncEnd(t) =>
      s.(lock := Free,
         pc := if p.NoBuffer? then s.pc[t := SecondPass(p.want, p.w)]
               else if p.ReadSync? && s.lock.failed == 0 then s.pc[t := ReadFill(p.i, p.blk)]
               else if p.ReadSync? then s.pc[t := ReadOut(p.i, p.blk, -2)]
               else s.pc)
  }

  /** A write and clear with nothing in between is the uninterrupted `FlushOne` of one buffer. */
  lemma {:induction false} WriteThenClearIsFlush(s: System, t: Tid, i: nat)
    requires s.lock.Syncing? && s.lock.todo != [] && i == s.lock.todo[0] && i < |s.c.bufs|
    requires |s.c.bufs[i].data| == 512 && Enabled(s, SyncWrite(t, s.c.bufs[i].data))
    ensures var s1 := Do(s, SyncWrite(t, s.c.bufs[i].data));
      Enabled(s1, SyncClear(t)) && Do(s1, SyncClear(t)).c == FlushOne(s.c, i)
  {
  }

  // ------------------------------------------------------------------- ownership and flags

  /** The list is in order of last release, latest first. */
  ghost predicate Ordered(l: seq<nat>, stamp: seq<nat>) {
    && (forall k :: 0 <= k < |l| ==> l[k] < |stamp|)
    && (forall a, b :: 0 <= a < b < |l| ==> stamp[l[a]] >= stamp[l[b]])
  }

  ghost predicate Listed(s: System) {
    && NoDup(s.c.list) && (forall i: nat :: i in s.c.list <==> i < |s.c.bufs|)
    && Ordered(s.c.list, s.stamp)
    && (forall i :: 0 <= i < |s.stamp| ==> s.stamp[i] <= s.clock)
  }

  /** Buffers and the threads holding them name each other. */
  ghost predicate Linked(s: System) {
    && (forall t :: t in s.pc && Holding(s.pc[t]) ==>
          var p := s.pc[t];
          p.i < |s.c.bufs| && s.c.bufs[p.i].usr == Some(t) && Holds(s.c.bufs[p.i], p.blk))
    && (forall i :: 0 <= i < |s.c.bufs| && s.c.bufs[i].usr.Some? ==>
          var t := s.c.bufs[i].usr.value;
          t in s.pc && Holding(s.pc[t]) && s.pc[t].i == i)
  }

  ghost predicate Unique(bufs: seq<Buf>) {
    forall i, j :: 0 <= i < j < |bufs| && !bufs[i].unused && !bufs[j].unused ==> bufs[i].blkno != bufs[j].blkno
  }

  ghost predicate FlagsOk(b: Buf, p: Phase) {
    && (b.busy <==> b.usr.Some?)
    && (b.unused ==> !b.busy && !b.dirty && !b.valid)
    && (p.ReadFill? ==> !b.dirty)
    && (p.ReadOut? && p.status == 0 ==> b.valid)
  }

  /** Dirty buffers are queued, up to a write about to queue its own. */
  ghost predicate Queued(s: System) {
    && NoDup(s.c.io)
    && (forall i :: 0 <= i < |s.c.bufs| ==> FlagsOk(s.c.bufs[i], PhaseOf(s, i)))
    && (forall i :: 0 <= i < |s.c.bufs| && s.c.bufs[i].dirty && !PhaseOf(s, i).WriteQueue? ==> i in s.c.io)
  }

  /** What a sync under way has still to do. */
  ghost predicate LockOk(s: System)
    requires Shape(s)
  {
    s.lock.Syncing? ==>
      && s.lock.t in s.pc && (Holding(s.pc[s.lock.t]) ==> s.pc[s.lock.t].ReadSync?)
      && (s.lock.wrote ==> Flushable(s.c, s.lock.todo[0]))
      && (s.lock.failed == 0 ==> forall i :: 0 <= i < |s.c.bufs| && s.c.bufs[i].dirty ==>
            i in s.lock.todo || PhaseOf(s, i).WriteQueue?)
  }

  ghost predicate Own(s: System) {
    Shape(s) && Listed(s) && Linked(s) && Unique(s.c.bufs) && Queued(s) && LockOk(s)
  }

  ghost predicate SameUse(a: Buf, b: Buf) {
    a.blkno == b.blkno && a.busy == b.busy && a.unused == b.unused && a.usr == b.usr
  }

  /** A thread working on its own buffer keeps the invariant when its new flags suit its new phase. */
  lemma {:induction false} LocalKeepsOwn(s: System, t: Tid, b: Buf, p: Phase)
    requires Own(s) && t in s.pc && Holding(s.pc[t]) && !s.pc[t].ReadSync?
    requires Holding(p) && p.i == s.pc[t].i && p.blk == s.pc[t].blk && (p.WriteCopy? ==> |p.d| == 512)
    requires SameUse(s.c.bufs[p.i], b) && |b.data| == 512 && FlagsOk(b, p)
    requires b.dirty && !p.WriteQueue? ==> p.i in s.c.io
    requires s.lock.Free? || (s.c.bufs[p.i].dirty ==> b.dirty)
    requires s.lock.Syncing? && s.lock.failed == 0 && b.dirty && !p.WriteQueue? ==> p.i in s.lock.todo
    ensures Own(Local(s, t, b, p))
  {
    var s' := Local(s, t, b, p);
    assert s.c.bufs[p.i].usr == Some(t);
    forall i: nat | i < |s.c.bufs| && i != p.i ensures PhaseOf(s', i) == PhaseOf(s, i) {
      assert s.c.bufs[i].usr != Some(t);
    }
    assert PhaseOf(s', p.i) == p;
  }

  ghost predicate Obtains(s: System, blk: nat, t: Tid)
    requires Shape(s)
  {
    TryGet(s.c, blk, t).1.Hit? || TryGet(s.c, blk, t).1.Fresh?
  }

  /** A new holder is the only one: the buffer was idle and no other holds the block. */
  lemma {:induction false} ObtainIsExclusive(s: System, t: Tid, blk: nat)
    requires Own(s) && Obtains(s, blk, t)
    ensures var (c, got) := TryGet(s.c, blk, t);
      var b := c.bufs[got.i];
      && s.c.bufs[got.i].usr == None && (got.Fresh? ==> !s.c.bufs[got.i].dirty)
      && b.usr == Some(t) && b.busy && Holds(b, blk) && |b.data| == 512
      && (if got.Hit? then b == s.c.bufs[got.i].(busy := true, usr := Some(t)) && Holds(s.c.bufs[got.i], blk)
          else !b.valid && !b.dirty)
      && c == s.c.(bufs := s.c.bufs[got.i := b])
      && forall j :: 0 <= j < |s.c.bufs| && j != got.i ==> !Holds(s.c.bufs[j], blk)
  {
    var (c, got) := TryGet(s.c, blk, t);
    var i := got.i;
    assert FlagsOk(s.c.bufs[i], PhaseOf(s, i));
    forall j: nat | j < |s.c.bufs| && j != i ensures !Holds(s.c.bufs[j], blk) {
      if got.Fresh? { assert j in s.c.list; }
    }
  }

  /** Reserving the idle buffer `i`, as `b` with block `blk`, for thread `t`. */
  ghost predicate Reserves(s: System, t: Tid, i: nat, b: Buf, p: Phase) {
    && t in s.pc && !Holding(s.pc[t]) && s.lock.Free?
    && i < |s.c.bufs| && s.c.bufs[i].usr == None
    && Holding(p) && p.i == i && Holds(b, p.blk) && (p.ReadCheck? || p.WriteCopy?) && WholeBlock(p)
    && b.usr == Some(t) && b.busy && |b.data| == 512
    && (b.dirty ==> s.c.bufs[i].dirty)
    && forall j :: 0 <= j < |s.c.bufs| && j != i ==> !Holds(s.c.bufs[j], p.blk)
  }

  function Reserved(s: System, t: Tid, i: nat, b: Buf, p: Phase): System
    requires i < |s.c.bufs|
  {
    s.(c := s.c.(bufs := s.c.bufs[i := b]), pc := s.pc[t := p])
  }

  /** A pass either reserves a buffer, or changes at most a phase without a buffer. */
  lemma {:induction false} TakeCases(s: System, t: Tid, blk: nat, w: Option<seq<Byte>>, busy: Phase, otherwise: Phase)
    requires Own(s) && t in s.pc && !Holding(s.pc[t]) && s.lock.Free? && (w.Some? ==> |w.value| == 512)
    ensures var (c, got) := TryGet(s.c, blk, t);
      if Obtains(s, blk, t) then
        var b, p := c.bufs[got.i], if w.Some? then WriteCopy(got.i, blk, w.value) else ReadCheck(got.i, blk);
        Reserves(s, t, got.i, b, p) && Take(s, t, blk, w, busy, otherwise) == Reserved(s, t, got.i, b, p)
      else
        Take(s, t, blk, w, busy, otherwise) == s.(pc := s.pc[t := if got.Nothing? then otherwise else busy])
  {
    if Obtains(s, blk, t) {
      ObtainIsExclusive(s, t, blk);
      hide FirstHit, LastAvailable, Own, Shape;
      var (c, got) := TryGet(s.c, blk, t);
      var b, p := c.bufs[got.i], if w.Some? then WriteCopy(got.i, blk, w.value) else ReadCheck(got.i, blk);
      assert Take(s, t, blk, w, busy, otherwise) == Reserved(s, t, got.i, b, p);
    }
  }

  lemma {:induction false} ReserveLinked(s: System, t: Tid, i: nat, b: Buf, p: Phase)
    requires Own(s) && Reserves(s, t, i, b, p)
    ensures var s' := Reserved(s, t, i, b, p); Shape(s') && Linked(s') && Unique(s'.c.bufs)
  {
    hide Listed, Queued;
  }

  lemma {:induction false} ReserveQueued(s: System, t: Tid, i: nat, b: Buf, p: Phase)
    requires Own(s) && Reserves(s, t, i, b, p)
    ensures Queued(Reserved(s, t, i, b, p))
  {
    var s' := Reserved(s, t, i, b, p);
    assert FlagsOk(s.c.bufs[i], PhaseOf(s, i));
    forall j: nat | j < |s.c.bufs| && j != i ensures PhaseOf(s', j) == PhaseOf(s, j) {
      assert s.c.bufs[j].usr != Some(t);
    }
    assert PhaseOf(s', i) == p;
    hide Listed, Linked, Unique;
  }

  lemma {:induction false} ReserveKeepsOwn(s: System, t: Tid, i: nat, b: Buf, p: Phase)
    requires Own(s) && Reserves(s, t, i, b, p)
    ensures Own(Reserved(s, t, i, b, p))
  {
    ReserveLinked(s, t, i, b, p);
    ReserveQueued(s, t, i, b, p);
    hide Linked, Queued, Unique;
  }

  /** A thread without a buffer may change to another phase without one. */
  lemma {:induction false} IdlePhaseKeepsOwn(s: System, t: Tid, p: Phase)
    requires Own(s) && t in s.pc && !Holding(s.pc[t]) && !Holding(p) && WholeBlock(p)
    ensures Own(s.(pc := s.pc[t := p]))
  {
    var s' := s.(pc := s.pc[t := p]);
    forall j: nat | j < |s.c.bufs| ensures PhaseOf(s', j) == PhaseOf(s, j) {
      assert s.c.bufs[j].usr != Some(t);
    }
  }

  lemma {:induction false} TakeKeepsOwn(
      s: System, t: Tid, blk: nat, w: Option<seq<Byte>>, busy: Phase, otherwise: Phase)
    requires Own(s) && t in s.pc && !Holding(s.pc[t]) && s.lock.Free? && (w.Some? ==> |w.value| == 512)
    requires !Holding(otherwise) && WholeBlock(otherwise) && !Holding(busy) && WholeBlock(busy)
    ensures Own(Take(s, t, blk, w, busy, otherwise))
  {
    TakeCases(s, t, blk, w, busy, otherwise);
    hide Own, Take, Reserves, Reserved;
    if Obtains(s, blk, t) {
      var (c, got) := TryGet(s.c, blk, t);
      var p := if w.Some? then WriteCopy(got.i, blk, w.value) else ReadCheck(got.i, blk);
      ReserveKeepsOwn(s, t, got.i, c.bufs[got.i], p);
    } else {
      IdlePhaseKeepsOwn(s, t, otherwise);
      IdlePhaseKeepsOwn(s, t, busy);
    }
  }

  lemma {:induction false} QueueKeepsOwn(s: System, i: nat)
    requires Own(s) && s.lock.Free? && i < |s.c.bufs|
    ensures Own(s.(c := Queue(s.c, i))) && i in Queue(s.c, i).io
  {
    var s1 := s.(c := Queue(s.c, i));
    WithoutMembers(s.c.io, i);
    if i in s.c.io { PushNoDup(Without(s.c.io, i), i); } else { PushNoDup(s.c.io, i); }
    assert forall j :: j in s.c.io || j == i ==> j in s1.c.io;
    assert forall j: nat :: PhaseOf(s1, j) == PhaseOf(s, j);
    hide Without;
  }

  lemma {:induction false} EnqueueKeepsOwn(s: System, t: Tid)
    requires Own(s) && Enabled(s, Enqueue(t))
    ensures Own(Do(s, Enqueue(t)))
  {
    var i := s.pc[t].i;
    var s1 := s.(c := Queue(s.c, i));
    QueueKeepsOwn(s, i);
    assert s.c.bufs[i].usr == Some(t) && PhaseOf(s, i) == s.pc[t];
    assert FlagsOk(s.c.bufs[i], PhaseOf(s, i));
    assert s.c.bufs[i := s.c.bufs[i]] == s.c.bufs;
    hide Own, Shape;
    LocalKeepsOwn(s1, t, s.c.bufs[i], Leaving(i, s.pc[t].blk));
  }

  lemma {:induction false} ConsOrdered(x: nat, w: seq<nat>, stamp: seq<nat>)
    requires Ordered(w, stamp) && x < |stamp| && forall k :: 0 <= k < |w| ==> stamp[x] >= stamp[w[k]]
    ensures Ordered([x] + w, stamp)
  {
    var f := [x] + w;
    assert forall k :: 0 < k < |f| ==> f[k] == w[k - 1];
  }

  lemma {:induction false} WithoutOrdered(l: seq<nat>, i: nat, stamp: seq<nat>)
    requires NoDup(l) && Ordered(l, stamp)
    ensures Ordered(Without(l, i), stamp)
  {
    if l != [] {
      var x, rest := l[0], l[1..];
      assert forall k :: 0 <= k < |rest| ==> rest[k] == l[k + 1];
      WithoutOrdered(rest, i, stamp);
      WithoutMembers(rest, i);
      var w := Without(rest, i);
      if x != i {
        forall k | 0 <= k < |w| ensures stamp[x] >= stamp[w[k]] {
          assert w[k] in rest;
        }
        ConsOrdered(x, w, stamp);
      }
    }
  }

  /** Moving an entry to the front with the newest stamp keeps the order. */
  lemma {:induction false} FrontOrdered(l: seq<nat>, i: nat, stamp: seq<nat>, now: nat)
    requires Ordered(l, stamp) && i !in l && i < |stamp| && forall k :: 0 <= k < |stamp| ==> stamp[k] < now
    ensures Ordered([i] + l, stamp[i := now])
  {
    var f, stamp' := [i] + l, stamp[i := now];
    forall a, b | 0 <= a < b < |f| ensures stamp'[f[a]] >= stamp'[f[b]] {
      assert f[b] == l[b - 1] && f[b] in l && stamp'[f[b]] == stamp[l[b - 1]];
      assert a > 0 ==> f[a] == l[a - 1] && f[a] in l && stamp'[f[a]] == stamp[l[a - 1]];
    }
  }

  lemma {:induction false} LetGoListed(s: System, t: Tid)
    requires Own(s) && Enabled(s, LetGo(t))
    ensures Listed(Do(s, LetGo(t)))
  {
    var i := s.pc[t].i;
    var l := Without(s.c.list, i);
    WithoutMembers(s.c.list, i);
    PushNoDup(l, i);
    assert forall j :: j in [i] + l <==> j == i || j in l;
    WithoutOrdered(s.c.list, i, s.stamp);
    FrontOrdered(l, i, s.stamp, s.clock + 1);
  }

  lemma {:induction false} LetGoKeepsOwn(s: System, t: Tid)
    requires Own(s) && Enabled(s, LetGo(t))
    ensures Own(Do(s, LetGo(t)))
  {
    LetGoListed(s, t);
    var s', i := Do(s, LetGo(t)), s.pc[t].i;
    assert s.c.bufs[i].usr == Some(t);
    assert FlagsOk(s.c.bufs[i], PhaseOf(s, i));
    forall j: nat | j < |s.c.bufs| && j != i ensures PhaseOf(s', j) == PhaseOf(s, j) {
      assert s.c.bufs[j].usr != Some(t);
    }
    assert PhaseOf(s', i) == Outside;
  }

  /** Steps of a thread on its own buffer, outside the lock. */
  lemma {:induction false} UnlockedKeepsOwn(s: System, a: Action)
    requires Own(s) && Enabled(s, a) && (a.Check? || a.Return? || a.Scribble? || a.Settle? || a.Mark?)
    ensures Own(Do(s, a))
  {
    var p := s.pc[a.t];
    assert s.c.bufs[p.i].usr == Some(a.t) && PhaseOf(s, p.i) == p;
    assert FlagsOk(s.c.bufs[p.i], p);
    var b, q := Do(s, a).c.bufs[p.i], Do(s, a).pc[a.t];
    LocalKeepsOwn(s, a.t, b, q);
  }

  lemma {:induction false} FillKeepsOwn(s: System, t: Tid)
    requires Own(s) && Enabled(s, Fill(t))
    ensures Own(Do(s, Fill(t)))
  {
    var p := s.pc[t];
    assert s.c.bufs[p.i].usr == Some(t) && PhaseOf(s, p.i) == p;
    assert FlagsOk(s.c.bufs[p.i], p);
    var b, q := Do(s, Fill(t)).c.bufs[p.i], Do(s, Fill(t)).pc[t];
    LocalKeepsOwn(s, t, b, q);
    assert s.c.bufs[p.i := s.c.bufs[p.i]] == s.c.bufs;
  }

  lemma {:induction false} SyncBeginKeepsOwn(s: System, t: Tid)
    requires Own(s) && Enabled(s, SyncBegin(t))
    ensures Own(Do(s, SyncBegin(t)))
  {
    assert forall i: nat :: PhaseOf(Do(s, SyncBegin(t)), i) == PhaseOf(s, i);
  }

  lemma {:induction false} SyncSkipKeepsOwn(s: System, t: Tid)
    requires Own(s) && Enabled(s, SyncSkip(t))
    ensures Own(Do(s, SyncSkip(t)))
  {
    var s', todo := Do(s, SyncSkip(t)), s.lock.todo;
    assert forall i: nat :: PhaseOf(s', i) == PhaseOf(s, i);
    assert todo == [todo[0]] + todo[1..];
  }

  lemma {:induction false} SyncWriteKeepsOwn(s: System, t: Tid, d: seq<Byte>)
    requires Own(s) && Enabled(s, SyncWrite(t, d))
    ensures Own(Do(s, SyncWrite(t, d)))
  {
    assert forall i: nat :: PhaseOf(Do(s, SyncWrite(t, d)), i) == PhaseOf(s, i);
  }

  lemma {:induction false} SyncClearLinked(s: System, t: Tid)
    requires Own(s) && Enabled(s, SyncClear(t))
    ensures var s' := Do(s, SyncClear(t)); Shape(s') && Linked(s') && Unique(s'.c.bufs)
  {
    WithoutInBounds(s.c.bufs, s.c.io, s.lock.todo[0]);
    hide Listed, Queued, LockOk, Without;
  }

  lemma {:induction false} SyncClearQueued(s: System, t: Tid)
    requires Own(s) && Enabled(s, SyncClear(t))
    ensures var s' := Do(s, SyncClear(t)); Shape(s') && Queued(s') && LockOk(s')
  {
    var s', todo := Do(s, SyncClear(t)), s.lock.todo;
    SyncClearLinked(s, t);
    assert forall i: nat :: PhaseOf(s', i) == PhaseOf(s, i);
    assert todo == [todo[0]] + todo[1..];
    WithoutMembers(s.c.io, todo[0]);
    assert FlagsOk(s.c.bufs[todo[0]], PhaseOf(s, todo[0]));
    hide Listed, Linked, Unique, Without;
  }

  lemma {:induction false} SyncClearKeepsOwn(s: System, t: Tid)
    requires Own(s) && Enabled(s, SyncClear(t))
    ensures Own(Do(s, SyncClear(t)))
  {
    SyncClearQueued(s, t);
    SyncClearLinked(s, t);
    hide Linked, Queued, Unique, LockOk;
  }

  lemma {:induction false} SyncEndKeepsOwn(s: System, t: Tid)
    requires Own(s) && Enabled(s, SyncEnd(t))
    ensures Own(Do(s, SyncEnd(t)))
  {
    var s', p := Do(s, SyncEnd(t)), s.pc[t];
    if p.ReadSync? {
      assert s.c.bufs[p.i].usr == Some(t) && PhaseOf(s, p.i) == p;
      assert FlagsOk(s.c.bufs[p.i], p);
      assert s.lock.failed == 0 ==> !s.c.bufs[p.i].dirty;
      forall j: nat | j < |s.c.bufs| && j != p.i ensures PhaseOf(s', j) == PhaseOf(s, j) {
        assert s.c.bufs[j].usr != Some(t);
      }
      assert PhaseOf(s', p.i) == s'.pc[t];
    } else {
      var s1 := s.(lock := Free);
      assert forall i: nat :: PhaseOf(s1, i) == PhaseOf(s, i);
      assert Own(s1);
      if p.NoBuffer? { IdlePhaseKeepsOwn(s1, t, SecondPass(p.want, p.w)); }
    }
  }

  lemma {:induction false} StepKeepsOwn(s: System, a: Action)
    requires Own(s) && Enabled(s, a)
    ensures Own(Do(s, a))
  {
    hide Own, Take;
    match a
    case Obtain(t, blk, w) => TakeKeepsOwn(s, t, blk, w, Waiting(blk, w), NoBuffer(blk, w));
    case Again(t) => TakeKeepsOwn(s, t, s.pc[t].want, s.pc[t].w, s.pc[t], Panicked);
    case Check(t) => UnlockedKeepsOwn(s, a);
    case Fill(t) => FillKeepsOwn(s, t);
    case Return(t) => UnlockedKeepsOwn(s, a);
    case Scribble(t, d) => UnlockedKeepsOwn(s, a);
    case Settle(t) => UnlockedKeepsOwn(s, a);
    case Mark(t) => UnlockedKeepsOwn(s, a);
    case Enqueue(t) => EnqueueKeepsOwn(s, t);
    case LetGo(t) => LetGoKeepsOwn(s, t);
    case SyncBegin(t) => SyncBeginKeepsOwn(s, t);
    case SyncSkip(t) => SyncSkipKeepsOwn(s, t);
    case SyncWrite(t, d) => SyncWriteKeepsOwn(s, t, d);
    case SyncClear(t) => SyncClearKeepsOwn(s, t);
    case SyncEnd(t) => SyncEndKeepsOwn(s, t);
  }

  // ---------------------------------------------------------------------------------- data

  /** The copy into the buffer has begun and its DIRTY flag is still to be set. */
  predicate Pending(p: Phase) { p.WriteCopy? || p.WriteMark? }

  ghost predicate DataOk(b: Buf, p: Phase, disk: seq<seq<Byte>>) {
    && (b.valid ==> b.blkno < |disk|)
    && (b.blkno < |disk| && !p.WriteCopy? && (b.valid || b.dirty || p.WriteMark?) ==> b.data == disk[b.blkno])
    && (p.ReadOut? && p.status == -1 ==> b.blkno >= |disk|)
    && (p.ReadOut? ==> p.status == 0 || p.status == -1 || p.status == -2)
  }

  /** Some buffer will still write block `b` to the device. */
  ghost predicate Covered(s: System, b: nat) {
    exists i :: 0 <= i < |s.c.bufs| && Holds(s.c.bufs[i], b) && (s.c.bufs[i].dirty || Pending(PhaseOf(s, i)))
  }

  /** Every block is on the device as last written, or some buffer will still write it. */
  ghost predicate Current(s: System)
    requires Shape(s)
  {
    forall b :: 0 <= b < |s.disk| ==> BlockAt(s.c.image, b) == s.disk[b] || Covered(s, b)
  }

  /** The block just written to the device is what the buffer holds, unless a write overlaps. */
  ghost predicate WroteOk(s: System)
    requires Shape(s)
  {
    s.lock.Syncing? && s.lock.wrote ==>
      var b := s.c.bufs[s.lock.todo[0]];
      b.blkno < |s.disk| && (BlockAt(s.c.image, b.blkno) == b.data || Writing(PhaseOf(s, s.lock.todo[0])))
  }

  ghost predicate Data(s: System)
    requires Shape(s)
  {
    && (forall i :: 0 <= i < |s.c.bufs| ==> DataOk(s.c.bufs[i], PhaseOf(s, i), s.disk))
    && Current(s) && WroteOk(s)
  }

  /** A held block with nothing left to write is up to date on the device. */
  lemma {:induction false} HeldBlockIsCurrent(s: System, t: Tid)
    requires Own(s) && Data(s) && t in s.pc && Holding(s.pc[t]) && s.pc[t].blk < |s.disk|
    requires !s.c.bufs[s.pc[t].i].dirty && !Pending(s.pc[t])
    ensures BlockAt(s.c.image, s.pc[t].blk) == s.disk[s.pc[t].blk]
  {
    var i, blk := s.pc[t].i, s.pc[t].blk;
    assert s.c.bufs[i].usr == Some(t) && Holds(s.c.bufs[i], blk) && PhaseOf(s, i) == s.pc[t];
    assert forall k :: 0 <= k < |s.c.bufs| && Holds(s.c.bufs[k], blk) ==> k == i;
  }

  /** Coverage depends only on the buffers of the block. */
  lemma {:induction false} CoverKept(s: System, s': System, b: nat)
    requires Covered(s, b) && |s'.c.bufs| == |s.c.bufs|
    requires forall i ::
      0 <= i < |s.c.bufs| && Holds(s.c.bufs[i], b) && (s.c.bufs[i].dirty || Pending(PhaseOf(s, i))) ==>
      Holds(s'.c.bufs[i], b) && (s'.c.bufs[i].dirty || Pending(PhaseOf(s', i)))
    ensures Covered(s', b)
  {
    var k :| 0 <= k < |s.c.bufs| && Holds(s.c.bufs[k], b) && (s.c.bufs[k].dirty || Pending(PhaseOf(s, k)));
    assert Holds(s'.c.bufs[k], b);
  }

  /** A thread working on its own buffer. */
  lemma {:induction false} LocalKeepsData(s: System, t: Tid, b: Buf, p: Phase, disk: seq<seq<Byte>>)
    requires Own(s) && Data(s) && t in s.pc && Holding(s.pc[t])
    requires Holding(p) && p.i == s.pc[t].i && p.blk == s.pc[t].blk
    requires SameUse(s.c.bufs[p.i], b)
    requires |disk| == |s.disk| && forall k :: 0 <= k < |disk| && k != p.blk ==> disk[k] == s.disk[k]
    requires Shape(Local(s, t, b, p).(disk := disk))
    requires DataOk(b, p, disk)
    requires p.blk < |disk| && !b.dirty && !Pending(p) ==> BlockAt(s.c.image, p.blk) == disk[p.blk]
    requires s.lock.Syncing? && s.lock.wrote && s.lock.todo[0] == p.i ==>
      p.blk < |disk| && (BlockAt(s.c.image, p.blk) == b.data || Writing(p))
    ensures Data(Local(s, t, b, p).(disk := disk))
  {
    var s' := Local(s, t, b, p).(disk := disk);
    assert s.c.bufs[p.i].usr == Some(t) && Holds(s.c.bufs[p.i], p.blk);
    forall i: nat | i < |s.c.bufs| && i != p.i
      ensures PhaseOf(s', i) == PhaseOf(s, i) && DataOk(s'.c.bufs[i], PhaseOf(s', i), disk)
    {
      assert s.c.bufs[i].usr != Some(t);
      assert DataOk(s.c.bufs[i], PhaseOf(s, i), s.disk);
      assert !Holds(s.c.bufs[i], p.blk);
      assert FlagsOk(s.c.bufs[i], PhaseOf(s, i));
    }
    assert PhaseOf(s', p.i) == p;
    forall k | 0 <= k < |disk| ensures BlockAt(s'.c.image, k) == disk[k] || Covered(s', k) {
      if k == p.blk {
        assert Holds(s'.c.bufs[p.i], k);
      } else if Covered(s, k) {
        CoverKept(s, s', k);
      }
    }
  }

  lemma {:induction false} UnlockedKeepsData(s: System, a: Action)
    requires Own(s) && Data(s) && Enabled(s, a) && (a.Check? || a.Return? || a.Scribble? || a.Settle? || a.Mark?)
    requires Own(Do(s, a))
    ensures Data(Do(s, a))
  {
    var s', p := Do(s, a), s.pc[a.t];
    assert s.c.bufs[p.i].usr == Some(a.t) && Holds(s.c.bufs[p.i], p.blk) && PhaseOf(s, p.i) == p;
    assert DataOk(s.c.bufs[p.i], p, s.disk) && FlagsOk(s.c.bufs[p.i], p);
    var b, q := s'.c.bufs[p.i], s'.pc[a.t];
    if p.blk < |s.disk| && !b.dirty && !Pending(q) { HeldBlockIsCurrent(s, a.t); }
    assert s' == Local(s, a.t, b, q).(disk := s'.disk);
    LocalKeepsData(s, a.t, b, q, s'.disk);
  }

  lemma {:induction false} FillKeepsData(s: System, t: Tid)
    requires Own(s) && Data(s) && Enabled(s, Fill(t)) && Own(Do(s, Fill(t)))
    ensures Data(Do(s, Fill(t)))
  {
    var s', p := Do(s, Fill(t)), s.pc[t];
    assert s.c.bufs[p.i].usr == Some(t) && Holds(s.c.bufs[p.i], p.blk) && PhaseOf(s, p.i) == p;
    assert DataOk(s.c.bufs[p.i], p, s.disk) && FlagsOk(s.c.bufs[p.i], p);
    var b, q := s'.c.bufs[p.i], s'.pc[t];
    if p.blk < |s.disk| { HeldBlockIsCurrent(s, t); }
    assert s.c.bufs[p.i := s.c.bufs[p.i]] == s.c.bufs;
    assert s' == Local(s, t, b, q).(disk := s.disk);
    LocalKeepsData(s, t, b, q, s.disk);
  }

  /** The data part does not depend on the lists or the stamps. */
  lemma {:induction false} SameViewData(s: System, s': System)
    requires Shape(s) && Shape(s') && Data(s)
    requires s'.c.bufs == s.c.bufs && s'.c.image == s.c.image && s'.pc == s.pc && s'.disk == s.disk
    requires s'.lock == s.lock
    ensures Data(s')
  {
    assert forall i: nat :: PhaseOf(s', i) == PhaseOf(s, i);
    forall b | 0 <= b < |s.disk| && Covered(s, b) ensures Covered(s', b) { CoverKept(s, s', b); }
  }

  lemma {:induction false} EnqueueKeepsData(s: System, t: Tid)
    requires Own(s) && Data(s) && Enabled(s, Enqueue(t)) && Own(Do(s, Enqueue(t)))
    ensures Data(Do(s, Enqueue(t)))
  {
    var s', p := Do(s, Enqueue(t)), s.pc[t];
    assert s.c.bufs[p.i].usr == Some(t) && Holds(s.c.bufs[p.i], p.blk) && PhaseOf(s, p.i) == p;
    assert DataOk(s.c.bufs[p.i], p, s.disk);
    var b, q := s.c.bufs[p.i], s'.pc[t];
    if p.blk < |s.disk| && !b.dirty { HeldBlockIsCurrent(s, t); }
    var s1 := Local(s, t, b, q).(disk := s.disk);
    assert s1.c.bufs == s.c.bufs == s'.c.bufs;
    assert Shape(s1);
    LocalKeepsData(s, t, b, q, s.disk);
    SameViewData(s1, s');
  }

  /** What reserving a buffer must respect about its contents. */
  ghost predicate FreshData(s: System, i: nat, b: Buf)
    requires i < |s.c.bufs|
  {
    || b == s.c.bufs[i].(busy := true, usr := b.usr)
    || (!s.c.bufs[i].dirty && !b.valid && !b.dirty)
  }

  lemma {:induction false} ReserveKeepsData(s: System, t: Tid, i: nat, b: Buf, p: Phase)
    requires Own(s) && Data(s) && Reserves(s, t, i, b, p) && FreshData(s, i, b)
    requires Shape(Reserved(s, t, i, b, p))
    ensures Data(Reserved(s, t, i, b, p))
  {
    var s' := Reserved(s, t, i, b, p);
    assert PhaseOf(s, i) == Outside && PhaseOf(s', i) == p;
    assert DataOk(s.c.bufs[i], PhaseOf(s, i), s.disk);
    forall j: nat | j < |s.c.bufs| && j != i ensures PhaseOf(s', j) == PhaseOf(s, j) {
      assert s.c.bufs[j].usr != Some(t);
    }
    hide Listed, Queued, Linked, Unique, LockOk;
    forall j: nat | j < |s.c.bufs| ensures DataOk(s'.c.bufs[j], PhaseOf(s', j), s.disk) {
      assert DataOk(s.c.bufs[j], PhaseOf(s, j), s.disk);
    }
    forall k | 0 <= k < |s.disk| && Covered(s, k) ensures Covered(s', k) { CoverKept(s, s', k); }
  }

  lemma {:induction false} IdlePhaseKeepsData(s: System, t: Tid, p: Phase)
    requires Own(s) && Data(s) && t in s.pc && !Holding(s.pc[t]) && !Holding(p) && Shape(s.(pc := s.pc[t := p]))
    ensures Data(s.(pc := s.pc[t := p]))
  {
    var s' := s.(pc := s.pc[t := p]);
    forall j: nat | j < |s.c.bufs| ensures PhaseOf(s', j) == PhaseOf(s, j) {
      assert s.c.bufs[j].usr != Some(t);
      assert DataOk(s.c.bufs[j], PhaseOf(s, j), s.disk);
    }
    forall k | 0 <= k < |s.disk| && Covered(s, k) ensures Covered(s', k) { CoverKept(s, s', k); }
  }

  lemma {:induction false} TakeKeepsData(
      s: System, t: Tid, blk: nat, w: Option<seq<Byte>>, busy: Phase, otherwise: Phase)
    requires Own(s) && Data(s) && t in s.pc && !Holding(s.pc[t]) && s.lock.Free? && (w.Some? ==> |w.value| == 512)
    requires !Holding(otherwise) && !Holding(busy) && Own(Take(s, t, blk, w, busy, otherwise))
    ensures Data(Take(s, t, blk, w, busy, otherwise))
  {
    TakeCases(s, t, blk, w, busy, otherwise);
    if Obtains(s, blk, t) {
      ObtainIsExclusive(s, t, blk);
      var (c, got) := TryGet(s.c, blk, t);
      var p := if w.Some? then WriteCopy(got.i, blk, w.value) else ReadCheck(got.i, blk);
      assert FreshData(s, got.i, c.bufs[got.i]);
      hide Data, Take, Reserves, Reserved;
      ReserveKeepsData(s, t, got.i, c.bufs[got.i], p);
    } else {
      hide Data, Take, Reserves, Reserved;
      var p := if TryGet(s.c, blk, t).1.Nothing? then otherwise else busy;
      IdlePhaseKeepsData(s, t, p);
    }
  }

  lemma {:induction false} LetGoKeepsData(s: System, t: Tid)
    requires Own(s) && Data(s) && Enabled(s, LetGo(t)) && Own(Do(s, LetGo(t)))
    ensures Data(Do(s, LetGo(t)))
  {
    var s', i := Do(s, LetGo(t)), s.pc[t].i;
    assert s.c.bufs[i].usr == Some(t) && PhaseOf(s, i) == s.pc[t];
    assert DataOk(s.c.bufs[i], PhaseOf(s, i), s.disk);
    forall j: nat | j < |s.c.bufs| && j != i ensures PhaseOf(s', j) == PhaseOf(s, j) {
      assert s.c.bufs[j].usr != Some(t);
      assert DataOk(s.c.bufs[j], PhaseOf(s, j), s.disk);
    }
    forall b | 0 <= b < |s.disk| && Covered(s, b) ensures Covered(s', b) { CoverKept(s, s', b); }
  }

  lemma {:induction false} SyncWriteKeepsData(s: System, t: Tid, d: seq<Byte>)
    requires Own(s) && Data(s) && Enabled(s, SyncWrite(t, d)) && Own(Do(s, SyncWrite(t, d)))
    ensures Data(Do(s, SyncWrite(t, d)))
  {
    var s', i := Do(s, SyncWrite(t, d)), s.lock.todo[0];
    var blk := s.c.bufs[i].blkno;
    assert forall j: nat :: PhaseOf(s', j) == PhaseOf(s, j);
    assert FlagsOk(s.c.bufs[i], PhaseOf(s, i));
    assert Covered(s', blk) by { assert Holds(s'.c.bufs[i], blk); }
    PutThenGet(s.c.image, blk, d, blk);
    forall b | 0 <= b < |s.disk| ensures BlockAt(s'.c.image, b) == s.disk[b] || Covered(s', b) {
      PutThenGet(s.c.image, blk, d, b);
      if Covered(s, b) { CoverKept(s, s', b); }
    }
  }

  lemma {:induction false} SyncMovesKeepData(s: System, a: Action)
    requires Own(s) && Data(s) && Enabled(s, a) && (a.SyncBegin? || a.SyncSkip? || a.SyncEnd?) && Own(Do(s, a))
    ensures Data(Do(s, a))
  {
    var s', p := Do(s, a), s.pc[a.t];
    if a.SyncEnd? && p.ReadSync? {
      assert s.c.bufs[p.i].usr == Some(a.t) && PhaseOf(s, p.i) == p;
      assert DataOk(s.c.bufs[p.i], p, s.disk);
    }
    forall j: nat | j < |s.c.bufs|
      ensures DataOk(s'.c.bufs[j], PhaseOf(s', j), s.disk) && Pending(PhaseOf(s', j)) == Pending(PhaseOf(s, j))
    {
      assert DataOk(s.c.bufs[j], PhaseOf(s, j), s.disk);
      assert s'.c.bufs[j] == s.c.bufs[j];
      assert PhaseOf(s', j) == PhaseOf(s, j) || (s.c.bufs[j].usr == Some(a.t) && a.SyncEnd? && p.ReadSync?);
    }
    forall b | 0 <= b < |s.disk| && Covered(s, b) ensures Covered(s', b) { CoverKept(s, s', b); }
  }

  /** The sync under way is about to clear the DIRTY flag of a buffer that has changed since it was
      written to the device. */
  predicate LosesWrite(s: System)
    requires Shape(s)
  {
    && s.lock.Syncing? && s.lock.wrote
    && var b := s.c.bufs[s.lock.todo[0]];
    && b.blkno < |s.disk| && BlockAt(s.c.image, b.blkno) != b.data && !Pending(PhaseOf(s, s.lock.todo[0]))
  }

  /** Clearing DIRTY keeps the data sound exactly when it does not lose a write. */
  lemma {:induction false} ClearIsSoundIff(s: System, t: Tid)
    requires Own(s) && Data(s) && Enabled(s, SyncClear(t))
    ensures Own(Do(s, SyncClear(t)))
    ensures Data(Do(s, SyncClear(t))) <==> !LosesWrite(s)
  {
    SyncClearKeepsOwn(s, t);
    var s', i := Do(s, SyncClear(t)), s.lock.todo[0];
    var blk := s.c.bufs[i].blkno;
    assert forall j: nat :: PhaseOf(s', j) == PhaseOf(s, j);
    assert FlagsOk(s.c.bufs[i], PhaseOf(s, i)) && DataOk(s.c.bufs[i], PhaseOf(s, i), s.disk);
    assert Holds(s'.c.bufs[i], blk);
    assert forall k :: 0 <= k < |s'.c.bufs| && Holds(s'.c.bufs[k], blk) ==> k == i;
    assert Covered(s', blk) <==> Pending(PhaseOf(s, i));
    forall j: nat | j < |s.c.bufs| ensures DataOk(s'.c.bufs[j], PhaseOf(s', j), s.disk) {
      assert DataOk(s.c.bufs[j], PhaseOf(s, j), s.disk);
    }
    forall b | 0 <= b < |s.disk| && b != blk && Covered(s, b) ensures Covered(s', b) { CoverKept(s, s', b); }
  }

  /** A write is lost only if it is between setting DIRTY and queueing the buffer: a sync that
      overlaps no write of a buffer it flushes loses nothing. */
  lemma {:induction false} LossNeedsOverlap(s: System)
    requires Own(s) && Data(s) && LosesWrite(s)
    ensures PhaseOf(s, s.lock.todo[0]).WriteQueue?
  {
  }

  lemma {:induction false} PassesKeepData(s: System, a: Action)
    requires Own(s) && Data(s) && Enabled(s, a) && (a.Obtain? || a.Again?) && Own(Do(s, a))
    ensures Data(Do(s, a))
  {
    hide Own, Data, Take;
    if a.Obtain? {
      TakeKeepsData(s, a.t, a.blk, a.w, Waiting(a.blk, a.w), NoBuffer(a.blk, a.w));
    } else {
      TakeKeepsData(s, a.t, s.pc[a.t].want, s.pc[a.t].w, s.pc[a.t], Panicked);
    }
  }

  lemma {:induction false} StepKeepsData(s: System, a: Action)
    requires Own(s) && Data(s) && Enabled(s, a) && (a.SyncClear? ==> !LosesWrite(s))
    ensures Own(Do(s, a)) && Data(Do(s, a))
  {
    hide Own, Data, LosesWrite, Enabled, Do, Shape;
    StepKeepsOwn(s, a);
    match a
    case Obtain(t, blk, w) => PassesKeepData(s, a);
    case Again(t) => PassesKeepData(s, a);
    case Check(t) => UnlockedKeepsData(s, a);
    case Fill(t) => FillKeepsData(s, t);
    case Return(t) => UnlockedKeepsData(s, a);
    case Scribble(t, d) => UnlockedKeepsData(s, a);
    case Settle(t) => UnlockedKeepsData(s, a);
    case Mark(t) => UnlockedKeepsData(s, a);
    case Enqueue(t) => EnqueueKeepsData(s, t);
    case LetGo(t) => LetGoKeepsData(s, t);
    case SyncBegin(t) => SyncMovesKeepData(s, a);
    case SyncSkip(t) => SyncMovesKeepData(s, a);
    case SyncWrite(t, d) => SyncWriteKeepsData(s, t, d);
    case SyncClear(t) => ClearIsSoundIff(s, t);
    case SyncEnd(t) => SyncMovesKeepData(s, a);
  }

  // ---------------------------------------------------------------------------- whole runs

  predicate Runs(s: System, actions: seq<Action>)
    decreases |actions|
  {
    actions == [] || (Enabled(s, actions[0]) && Runs(Do(s, actions[0]), actions[1..]))
  }

  function After(s: System, actions: seq<Action>): System
    requires Runs(s, actions)
    decreases |actions|
  {
    if actions == [] then s else After(Do(s, actions[0]), actions[1..])
  }

  /** No sync of the run clears the DIRTY flag of a buffer that changed since it was written. */
  predicate LossFree(s: System, actions: seq<Action>)
    requires Runs(s, actions)
    decreases |actions|
  {
    actions == [] || ((actions[0].SyncClear? ==> !LosesWrite(s)) && LossFree(Do(s, actions[0]), actions[1..]))
  }

  lemma {:induction false} RunKeepsOwn(s: System, actions: seq<Action>)
    requires Own(s) && Runs(s, actions)
    ensures Own(After(s, actions))
    decreases |actions|
  {
    if actions != [] {
      StepKeepsOwn(s, actions[0]);
      RunKeepsOwn(Do(s, actions[0]), actions[1..]);
    }
  }

  lemma {:induction false} RunKeepsData(s: System, actions: seq<Action>)
    requires Own(s) && Data(s) && Runs(s, actions) && LossFree(s, actions)
    ensures Own(After(s, actions)) && Data(After(s, actions))
    decreases |actions|
  {
    if actions != [] {
      StepKeepsData(s, actions[0]);
      RunKeepsData(Do(s, actions[0]), actions[1..]);
    }
  }

  /** No sync of the run clears the DIRTY flag of a buffer whose writer has set it and is still to
      queue the buffer. */
  predicate NoOverlap(s: System, actions: seq<Action>)
    requires Runs(s, actions)
    decreases |actions|
  {
    actions == [] ||
    ((actions[0].SyncClear? ==> !PhaseOf(s, s.lock.todo[0]).WriteQueue?) && NoOverlap(Do(s, actions[0]), actions[1..]))
  }

  /** Such a run loses no write. */
  lemma {:induction false} NoOverlapNoLoss(s: System, actions: seq<Action>)
    requires Own(s) && Data(s) && Runs(s, actions) && NoOverlap(s, actions)
    ensures LossFree(s, actions)
    decreases |actions|
  {
    if actions != [] {
      if LosesWrite(s) { LossNeedsOverlap(s); }
      StepKeepsData(s, actions[0]);
      NoOverlapNoLoss(Do(s, actions[0]), actions[1..]);
    }
  }

  /** The state `bdev_init_buffer_cache` leaves, with no thread in a call. */
  ghost predicate Initial(s: System) {
    && s.c == BufferCache.Init(|s.c.bufs|, s.c.image) && s.lock == Free && s.clock == 0
    && s.stamp == seq(|s.c.bufs|, _ => 0)
    && |s.disk| == Blocks(s.c.image) && (forall b :: 0 <= b < |s.disk| ==> s.disk[b] == BlockAt(s.c.image, b))
    && forall t :: t in s.pc ==> s.pc[t] == Outside
  }

  lemma {:induction false} InitialIsSound(s: System)
    requires Initial(s)
    ensures Own(s) && Data(s)
  {
    forall i: nat ensures i in s.c.list <==> i < |s.c.bufs| {
      if i < |s.c.bufs| { assert s.c.list[i] == i; }
    }
  }

  /** No two buffers in use hold one block, a buffer is BUSY exactly when it has a user, and no two
      threads hold one buffer. */
  ghost predicate WellOwned(s: System) {
    && (forall i, j :: 0 <= i < j < |s.c.bufs| && !s.c.bufs[i].unused && !s.c.bufs[j].unused ==>
          s.c.bufs[i].blkno != s.c.bufs[j].blkno)
    && (forall i :: 0 <= i < |s.c.bufs| ==> (s.c.bufs[i].busy <==> s.c.bufs[i].usr.Some?))
    && (forall t, u ::
          t in s.pc && u in s.pc && Holding(s.pc[t]) && Holding(s.pc[u]) && s.pc[t].i == s.pc[u].i ==> t == u)
  }

  /** The ASSERTs of the calls: a releasing thread is the recorded user, a buffer read in is not
      dirty, and a buffer written out is dirty. */
  ghost predicate AssertsHold(s: System) {
    && Shape(s)
    && (forall t :: t in s.pc && s.pc[t].Leaving? ==> s.c.bufs[s.pc[t].i].usr == Some(t))
    && (forall t :: t in s.pc && s.pc[t].ReadFill? ==> !s.c.bufs[s.pc[t].i].dirty)
    && (s.lock.Syncing? && s.lock.wrote ==> s.c.bufs[s.lock.todo[0]].dirty)
  }

  lemma {:induction false} OwnMeans(s: System)
    requires Own(s)
    ensures WellOwned(s) && AssertsHold(s)
  {
    forall i | 0 <= i < |s.c.bufs| ensures s.c.bufs[i].busy <==> s.c.bufs[i].usr.Some? {
      assert FlagsOk(s.c.bufs[i], PhaseOf(s, i));
    }
    forall t | t in s.pc && s.pc[t].ReadFill? ensures !s.c.bufs[s.pc[t].i].dirty {
      assert FlagsOk(s.c.bufs[s.pc[t].i], PhaseOf(s, s.pc[t].i));
    }
  }

  /** Main result on ownership, for every interleaving, lost writes or not: buffers are well owned
      and none of the ASSERTs ever fires. */
  lemma {:induction false} BuffersAreOwned(s0: System, actions: seq<Action>)
    requires Initial(s0) && Runs(s0, actions)
    ensures WellOwned(After(s0, actions)) && AssertsHold(After(s0, actions))
  {
    InitialIsSound(s0);
    RunKeepsOwn(s0, actions);
    OwnMeans(After(s0, actions));
  }

  /** Along a list in order of last release, the last available buffer is the one released
      longest ago. */
  lemma {:induction false} LastIsOldest(bufs: seq<Buf>, l: seq<nat>, stamp: seq<nat>, j: nat)
    requires InBounds(bufs, l) && |stamp| == |bufs| && Ordered(l, stamp)
    requires j in l && Available(bufs[j])
    ensures LastAvailable(bufs, l).Some? && stamp[LastAvailable(bufs, l).value] <= stamp[j]
  {
    var n := |l|;
    if Available(bufs[l[n - 1]]) {
      var k :| 0 <= k < n && l[k] == j;
      assert k < n - 1 ==> stamp[l[k]] >= stamp[l[n - 1]];
    } else {
      var p := l[..n - 1];
      assert l == p + [l[n - 1]];
      assert j in p;
      LastIsOldest(bufs, p, stamp, j);
    }
  }

  /** A buffer given to a new block was idle and clean, and of all such buffers it is the one
      released longest ago. */
  lemma {:induction false} ReassignsOldestIdle(s: System, t: Tid, blk: nat)
    requires Own(s) && TryGet(s.c, blk, t).1.Fresh?
    ensures var i := TryGet(s.c, blk, t).1.i;
      && !s.c.bufs[i].busy && !s.c.bufs[i].dirty && s.c.bufs[i].usr == None
      && forall j :: 0 <= j < |s.c.bufs| && !s.c.bufs[j].busy && !s.c.bufs[j].dirty ==> s.stamp[i] <= s.stamp[j]
  {
    var i := TryGet(s.c, blk, t).1.i;
    assert FlagsOk(s.c.bufs[i], PhaseOf(s, i));
    forall j: nat | j < |s.c.bufs| && !s.c.bufs[j].busy && !s.c.bufs[j].dirty ensures s.stamp[i] <= s.stamp[j] {
      assert j in s.c.list;
      LastIsOldest(s.c.bufs, s.c.list, s.stamp, j);
    }
  }

  /** Main result on data: in every interleaving that loses no write, a read about to return OK
      returns the block as the last completed copy into it left it, and it fails with -1 only for
      a block the device does not have. */
  lemma {:induction false} ReadsSeeLatestWrite(s0: System, actions: seq<Action>, t: Tid)
    requires Initial(s0) && Runs(s0, actions) && LossFree(s0, actions) && Enabled(After(s0, actions), Return(t))
    ensures var s := After(s0, actions);
      var p := s.pc[t];
      && (p.status == 0 || p.status == -1 || p.status == -2)
      && (p.status == 0 ==> p.blk < |s.disk| && s.c.bufs[p.i].data == s.disk[p.blk])
      && (p.status == -1 ==> p.blk >= |s.disk|)
  {
    InitialIsSound(s0);
    RunKeepsData(s0, actions);
    var s := After(s0, actions);
    var p := s.pc[t];
    assert s.c.bufs[p.i].usr == Some(t) && Holds(s.c.bufs[p.i], p.blk);
    assert DataOk(s.c.bufs[p.i], PhaseOf(s, p.i), s.disk) && FlagsOk(s.c.bufs[p.i], PhaseOf(s, p.i));
  }

  /** Some thread is writing block `b`. */
  ghost predicate BeingWritten(s: System, b: nat) {
    exists t :: t in s.pc && Writing(s.pc[t]) && s.pc[t].blk == b
  }

  /** With nothing failed and nothing left to visit, a block still covered is being written. */
  lemma {:induction false} CoveredIsBeingWritten(s: System, b: nat)
    requires Own(s) && s.lock.Syncing? && s.lock.todo == [] && s.lock.failed == 0 && Covered(s, b)
    ensures BeingWritten(s, b)
  {
    var k :| 0 <= k < |s.c.bufs| && Holds(s.c.bufs[k], b) && (s.c.bufs[k].dirty || Pending(PhaseOf(s, k)));
    assert Writing(PhaseOf(s, k));
    hide Listed, Queued, LockOk, Unique;
    var u := s.c.bufs[k].usr.value;
    assert u in s.pc && s.pc[u].i == k && Writing(s.pc[u]) && s.pc[u].blk == b;
  }

  lemma {:induction false} DurableAtEnd(s: System)
    requires Own(s) && Data(s) && s.lock.Syncing? && s.lock.todo == [] && s.lock.failed == 0
    ensures forall b :: 0 <= b < |s.disk| ==> BlockAt(s.c.image, b) == s.disk[b] || BeingWritten(s, b)
  {
    hide Covered, BeingWritten, Listed, Linked, Queued, LockOk;
    forall b | 0 <= b < |s.disk| && Covered(s, b) ensures BeingWritten(s, b) {
      CoveredIsBeingWritten(s, b);
    }
  }

  /** A sync that reports no failure leaves every block on the device as last written, except for
      blocks with a write still under way. */
  lemma {:induction false} SyncIsDurable(s0: System, actions: seq<Action>, t: Tid)
    requires Initial(s0) && Runs(s0, actions) && LossFree(s0, actions)
    requires Enabled(After(s0, actions), SyncEnd(t)) && After(s0, actions).lock.failed == 0
    ensures var s := After(s0, actions);
      forall b :: 0 <= b < |s.disk| ==> BlockAt(s.c.image, b) == s.disk[b] || BeingWritten(s, b)
  {
    hide Initial, Runs, LossFree, After, BeingWritten, Own, Data, Do;
    InitialIsSound(s0);
    RunKeepsData(s0, actions);
    DurableAtEnd(After(s0, actions));
  }

  // ---------------------------------------------------------------------------- the PANIC

  /** The PANIC of `get_buffer`: the second pass ends in it exactly when no buffer holds the block
      and every buffer is busy or dirty. */
  lemma {:induction false} PanicsIff(s: System, t: Tid)
    requires Own(s) && Enabled(s, Again(t))
    ensures Do(s, Again(t)).pc[t].Panicked? <==>
      forall i :: 0 <= i < |s.c.bufs| ==>
        !Holds(s.c.bufs[i], s.pc[t].want) && (s.c.bufs[i].busy || s.c.bufs[i].dirty)
  {
    forall i: nat | i < |s.c.bufs|
      ensures i in s.c.list && (Available(s.c.bufs[i]) <==> !s.c.bufs[i].busy && !s.c.bufs[i].dirty)
    {
      assert FlagsOk(s.c.bufs[i], PhaseOf(s, i));
    }
    hide Listed, Linked, Queued, LockOk, Unique;
  }
}
