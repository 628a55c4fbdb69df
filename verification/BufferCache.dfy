/** The write-back buffer cache of src/bbuf.c over the RAM disk, as functions on its state: the
    buffers, the list in order of last release, and the list of buffers queued for writing. */
module BufferCache {
  import opened Wrappers
  import opened RamDisk
  import opened Threads
  import opened Queues

  /** `buf_cache_t`; the flag word is one boolean per flag. */
  datatype Buf = Buf(blkno: nat, busy: bool, valid: bool, dirty: bool, unused: bool, usr: Option<Tid>, data: seq<Byte>)

  datatype State = State(bufs: seq<Buf>, list: seq<nat>, io: seq<nat>, image: seq<Byte>)

  /** A buffer of `bdev_init_buffer_cache`. */
  function NewBuf(): Buf { Buf(0, false, false, false, true, None, seq(512, _ => 0)) }

  function Init(buffers: nat, image: seq<Byte>): State {
    State(seq(buffers, _ => NewBuf()), seq(buffers, i => i), [], image)
  }

  // ------------------------------------------------------------------- getting a buffer

  predicate Holds(b: Buf, blk: nat) { !b.unused && b.blkno == blk }

  predicate Available(b: Buf) { (!b.busy && !b.dirty) || b.unused }

  predicate InBounds(bufs: seq<Buf>, l: seq<nat>) { forall k :: 0 <= k < |l| ==> l[k] < |bufs| }

  /** First buffer of the list holding block `blk`. */
  function FirstHit(bufs: seq<Buf>, l: seq<nat>, blk: nat): (r: Option<nat>)
    requires InBounds(bufs, l)
    ensures r.Some? ==> r.value in l && r.value < |bufs| && Holds(bufs[r.value], blk)
    ensures r.None? ==> forall i :: i in l ==> i < |bufs| && !Holds(bufs[i], blk)
  {
    if l == [] then None else if Holds(bufs[l[0]], blk) then Some(l[0]) else FirstHit(bufs, l[1..], blk)
  }

  /** Last buffer of the list that may be reassigned. */
  function LastAvailable(bufs: seq<Buf>, l: seq<nat>): (r: Option<nat>)
    requires InBounds(bufs, l)
    ensures r.Some? ==> r.value in l && r.value < |bufs| && Available(bufs[r.value])
    ensures r.None? ==> forall i :: i in l ==> i < |bufs| && !Available(bufs[i])
  {
    if l == [] then None
    else if Available(bufs[l[|l| - 1]]) then Some(l[|l| - 1])
    else LastAvailable(bufs, l[..|l| - 1])
  }

  /** Outcome of one locked pass of `get_buffer`. */
  datatype Got = Hit(i: nat) | Busy(i: nat) | Fresh(i: nat) | Nothing

  /** One pass of `get_buffer` for block `blk` by thread `t`. */
  function TryGet(s: State, blk: nat, t: Tid): (r: (State, Got))
    requires InBounds(s.bufs, s.list)
    ensures |r.0.bufs| == |s.bufs| && r.0.list == s.list && r.0.io == s.io && r.0.image == s.image
    ensures !r.1.Nothing? ==> r.1.i < |s.bufs|
  {
    var hit := FirstHit(s.bufs, s.list, blk);
    if hit.Some? then
      var b := s.bufs[hit.value];
      if !b.busy && b.usr == None
      then (s.(bufs := s.bufs[hit.value := b.(busy := true, usr := Some(t))]), Hit(hit.value))
      else (s, Busy(hit.value))
    else
      var free := LastAvailable(s.bufs, s.list);
      if free.Some? then
        var b := s.bufs[free.value];
        (s.(bufs := s.bufs[free.value := Buf(blk, true, false, false, false, Some(t), b.data)]), Fresh(free.value))
      else (s, Nothing)
  }

  // ----------------------------------------------------------------------------- syncing

  predicate Flushable(s: State, i: nat) {
    i < |s.bufs| && s.bufs[i].dirty && s.bufs[i].blkno < Blocks(s.image)
  }

  /** A successful `write_block` of a dirty buffer: clean again and off the io list. */
  function FlushOne(s: State, i: nat): State
    requires Flushable(s, i) && |s.bufs[i].data| == 512
  {
    s.(bufs := s.bufs[i := s.bufs[i].(dirty := false)], io := Without(s.io, i),
       image := PutBlock(s.image, s.bufs[i].blkno, s.bufs[i].data))
  }

  /** The loop of `sync_buffer` over the buffers `todo`; the count is of failed writes. */
  function SyncList(s: State, todo: seq<nat>): (r: (State, nat))
    requires InBounds(s.bufs, todo) && forall i :: 0 <= i < |s.bufs| ==> |s.bufs[i].data| == 512
    ensures |r.0.bufs| == |s.bufs| && r.0.list == s.list && |r.0.image| == |s.image|
    ensures forall i :: 0 <= i < |s.bufs| ==> r.0.bufs[i] == s.bufs[i] || r.0.bufs[i] == s.bufs[i].(dirty := false)
    decreases |todo|
  {
    if todo == [] then (s, 0)
    else
      var i := todo[0];
      if Flushable(s, i) then SyncList(FlushOne(s, i), todo[1..])
      else
        var (s', rv) := SyncList(s, todo[1..]);
        (s', if s.bufs[i].dirty then rv + 1 else rv)
  }

  /** One turn of the loop. */
  lemma {:induction false} SyncListStep(s: State, todo: seq<nat>, k: nat)
    requires InBounds(s.bufs, todo) && (forall i :: 0 <= i < |s.bufs| ==> |s.bufs[i].data| == 512) && k < |todo|
    ensures var i := todo[k];
      var s' := if Flushable(s, i) then FlushOne(s, i) else s;
      && SyncList(s, todo[k..]).0 == SyncList(s', todo[k + 1..]).0
      && SyncList(s, todo[k..]).1 ==
           SyncList(s', todo[k + 1..]).1 + (if s.bufs[i].dirty && !Flushable(s, i) then 1 else 0)
  {
    assert todo[k..][0] == todo[k] && todo[k..][1..] == todo[k + 1..];
  }

  predicate Shaped(s: State) {
    && InBounds(s.bufs, s.list) && InBounds(s.bufs, s.io)
    && forall i :: 0 <= i < |s.bufs| ==> |s.bufs[i].data| == 512
  }

  function Sync(s: State): (State, nat)
    requires Shaped(s)
  {
    SyncList(s, s.io)
  }

  // -------------------------------------------------------------------------- the calls

  lemma {:induction false} WithoutInBounds(bufs: seq<Buf>, l: seq<nat>, i: nat)
    requires InBounds(bufs, l)
    ensures InBounds(bufs, Without(l, i))
  {
    if l != [] { WithoutInBounds(bufs, l[1..], i); }
  }

  lemma {:induction false} SyncShaped(s: State, todo: seq<nat>)
    requires Shaped(s) && InBounds(s.bufs, todo)
    ensures Shaped(SyncList(s, todo).0)
    decreases |todo|
  {
    if todo != [] {
      var i := todo[0];
      WithoutInBounds(s.bufs, s.io, i);
      SyncShaped(if Flushable(s, i) then FlushOne(s, i) else s, todo[1..]);
    }
  }

  function Synced(s: State): (r: State)
    requires Shaped(s)
    ensures Shaped(r) && |r.bufs| == |s.bufs| && |r.image| == |s.image|
  {
    SyncShaped(s, s.io);
    Sync(s).0
  }

  /** `get_buffer`: a second pass after one sync, then PANIC (`Nothing`). */
  function Get(s: State, blk: nat, t: Tid): (r: (State, Got))
    requires Shaped(s)
    ensures Shaped(r.0) && |r.0.bufs| == |s.bufs| && |r.0.image| == |s.image|
    ensures !r.1.Nothing? ==> r.1.i < |s.bufs|
  {
    var r := TryGet(s, blk, t);
    if r.1.Nothing? then TryGet(Synced(s), blk, t) else r
  }

  lemma {:induction false} ReleaseInBounds(s: State, i: nat)
    requires Shaped(s) && i < |s.bufs|
    ensures InBounds(s.bufs, [i] + Without(s.list, i))
  {
    WithoutInBounds(s.bufs, s.list, i);
  }

  /** `release_buffer`: to the front of the list, no longer busy. */
  function Release(s: State, i: nat): (r: State)
    requires Shaped(s) && i < |s.bufs|
    ensures Shaped(r)
  {
    ReleaseInBounds(s, i);
    s.(list := [i] + Without(s.list, i), bufs := s.bufs[i := s.bufs[i].(busy := false, usr := None)])
  }

  /** `queue_buffer`: to the tail of the io list, moved there if already queued. */
  function Queue(s: State, i: nat): (r: State)
    requires Shaped(s) && i < |s.bufs|
    ensures Shaped(r)
  {
    WithoutInBounds(s.bufs, s.io, i);
    if i in s.io then s.(io := Without(s.io, i) + [i]) else s.(io := s.io + [i])
  }

  datatype Outcome = Panic | Waits | Done(status: int, data: seq<Byte>)

  /** `update_buffer`: read the block in, if it exists. */
  function Update(s: State, i: nat): (r: (State, int))
    requires Shaped(s) && i < |s.bufs|
    ensures Shaped(r.0) && |r.0.bufs| == |s.bufs|
  {
    var b := s.bufs[i];
    if b.blkno < Blocks(s.image)
    then (s.(bufs := s.bufs[i := b.(data := BlockAt(s.image, b.blkno), valid := true)]), 0)
    else (s, -1)
  }

  /** The part of a read after its buffer is reserved. */
  function FinishRead(s: State, i: nat): (r: (State, Outcome))
    requires Shaped(s) && i < |s.bufs|
    ensures Shaped(r.0) && |r.0.bufs| == |s.bufs| && |r.0.image| == |s.image|
  {
    if s.bufs[i].valid then (Release(s, i), Done(0, s.bufs[i].data))
    else if s.bufs[i].dirty && Sync(s).1 != 0 then (Release(Synced(s), i), Done(-2, []))
    else
      var s2 := if s.bufs[i].dirty then Synced(s) else s;
      var (s3, status) := Update(s2, i);
      (Release(s3, i), Done(status, s3.bufs[i].data))
  }

  /** `bdev_read_buffer`. */
  function Read(s: State, blk: nat, t: Tid): (r: (State, Outcome))
    requires Shaped(s)
    ensures Shaped(r.0) && |r.0.bufs| == |s.bufs| && |r.0.image| == |s.image|
  {
    var (s1, got) := Get(s, blk, t);
    if got.Nothing? then (s1, Panic)
    else if got.Busy? then (s1, Waits)
    else FinishRead(s1, got.i)
  }

  /** The copy into the reserved buffer, which becomes dirty and is queued. */
  function Overwrite(s: State, i: nat, d: seq<Byte>): (r: State)
    requires Shaped(s) && i < |s.bufs| && |d| == 512
    ensures Shaped(r) && |r.bufs| == |s.bufs|
  {
    Queue(s.(bufs := s.bufs[i := s.bufs[i].(data := d, dirty := true)]), i)
  }

  /** The part of a write after its buffer is reserved. */
  function FinishWrite(s: State, i: nat, d: seq<Byte>): (r: (State, Outcome))
    requires Shaped(s) && i < |s.bufs| && |d| == 512
    ensures Shaped(r.0) && |r.0.bufs| == |s.bufs| && |r.0.image| == |s.image|
  {
    (Release(Overwrite(s, i, d), i), Done(0, []))
  }

  /** `bdev_write_buffer`. */
  function Write(s: State, blk: nat, d: seq<Byte>, t: Tid): (r: (State, Outcome))
    requires Shaped(s) && |d| == 512
    ensures Shaped(r.0) && |r.0.bufs| == |s.bufs| && |r.0.image| == |s.image|
  {
    var (s1, got) := Get(s, blk, t);
    if got.Nothing? then (s1, Panic)
    else if got.Busy? then (s1, Waits)
    else FinishWrite(s1, got.i, d)
  }

  // ------------------------------------------------------------------------- invariant

  /** Some dirty buffer holds block `b`. */
  ghost predicate DirtyCached(bufs: seq<Buf>, b: nat) {
    exists i :: 0 <= i < |bufs| && bufs[i].dirty && bufs[i].blkno == b
  }

  /** A buffer agrees with the abstract disk. */
  ghost predicate Coherent(b: Buf, disk: seq<seq<Byte>>) {
    && (b.unused ==> !b.valid && !b.dirty)
    && (b.valid ==> b.blkno < |disk|)
    && ((b.valid || b.dirty) && b.blkno < |disk| ==> b.data == disk[b.blkno])
  }

  /** The cache over its image represents the abstract disk: every block is either current in the
      image or held by a dirty buffer, no two buffers hold one block, and the io list is exactly
      the dirty buffers. */
  ghost predicate Inv(s: State, disk: seq<seq<Byte>>) {
    && Shaped(s)
    && NoDup(s.list) && (forall i: nat :: i in s.list <==> i < |s.bufs|)
    && NoDup(s.io) && (forall i: nat :: i in s.io <==> i < |s.bufs| && s.bufs[i].dirty)
    && |disk| == Blocks(s.image)
    && (forall i :: 0 <= i < |s.bufs| ==> Coherent(s.bufs[i], disk))
    && (forall i, j :: 0 <= i < j < |s.bufs| && !s.bufs[i].unused && !s.bufs[j].unused ==>
          s.bufs[i].blkno != s.bufs[j].blkno)
    && (forall b :: 0 <= b < |disk| ==> DirtyCached(s.bufs, b) || BlockAt(s.image, b) == disk[b])
  }

  /** No call is in progress. */
  ghost predicate Idle(s: State) {
    forall i :: 0 <= i < |s.bufs| ==> !s.bufs[i].busy && s.bufs[i].usr == None
  }

  ghost predicate IdleBut(s: State, k: nat) {
    forall i :: 0 <= i < |s.bufs| && i != k ==> !s.bufs[i].busy && s.bufs[i].usr == None
  }

  /** Some dirty buffer holds a block the device does not have; it can never be written out. */
  ghost predicate Poisoned(s: State) {
    exists i :: 0 <= i < |s.bufs| && s.bufs[i].dirty && s.bufs[i].blkno >= Blocks(s.image)
  }

  // ----------------------------------------------------------------------------- syncing

  lemma {:induction false} FlushKeepsDisk(s: State, disk: seq<seq<Byte>>, i: nat)
    requires Inv(s, disk) && Flushable(s, i)
    ensures var s' := FlushOne(s, i);
      && |s'.image| == |s.image|
      && forall b :: 0 <= b < |disk| ==> DirtyCached(s'.bufs, b) || BlockAt(s'.image, b) == disk[b]
  {
    var s', blk := FlushOne(s, i), s.bufs[i].blkno;
    forall b | 0 <= b < |disk| ensures DirtyCached(s'.bufs, b) || BlockAt(s'.image, b) == disk[b] {
      PutThenGet(s.image, blk, s.bufs[i].data, b);
      if b != blk && DirtyCached(s.bufs, b) {
        var k :| 0 <= k < |s.bufs| && s.bufs[k].dirty && s.bufs[k].blkno == b;
        assert s'.bufs[k].dirty && s'.bufs[k].blkno == b;
      }
    }
  }

  lemma {:induction false} FlushOneKeepsInv(s: State, disk: seq<seq<Byte>>, i: nat)
    requires Inv(s, disk) && Flushable(s, i)
    ensures Inv(FlushOne(s, i), disk)
  {
    FlushKeepsDisk(s, disk, i);
    WithoutMembers(s.io, i);
    WithoutInBounds(s.bufs, s.io, i);
    hide DirtyCached, BlockAt;
  }

  lemma {:induction false} SyncKeepsInv(s: State, disk: seq<seq<Byte>>, todo: seq<nat>)
    requires Inv(s, disk) && InBounds(s.bufs, todo)
    ensures Inv(SyncList(s, todo).0, disk)
    decreases |todo|
  {
    if todo != [] {
      var i := todo[0];
      if Flushable(s, i) { FlushOneKeepsInv(s, disk, i); }
      SyncKeepsInv(if Flushable(s, i) then FlushOne(s, i) else s, disk, todo[1..]);
    }
  }

  /** What syncing does to every buffer. */
  lemma {:induction false} SyncEffect(s: State, todo: seq<nat>, k: nat)
    requires Shaped(s) && NoDup(todo) && InBounds(s.bufs, todo) && k < |s.bufs|
    ensures SyncList(s, todo).0.bufs[k] ==
      if k in todo && Flushable(s, k) then s.bufs[k].(dirty := false) else s.bufs[k]
    decreases |todo|
  {
    if todo != [] {
      var i := todo[0];
      assert todo == [i] + todo[1..] && i !in todo[1..];
      WithoutInBounds(s.bufs, s.io, i);
      SyncEffect(if Flushable(s, i) then FlushOne(s, i) else s, todo[1..], k);
    }
  }

  /** When syncing reports success. */
  lemma {:induction false} SyncReport(s: State, todo: seq<nat>)
    requires Shaped(s) && NoDup(todo) && InBounds(s.bufs, todo)
    ensures SyncList(s, todo).1 == 0 <==> forall k :: k in todo && s.bufs[k].dirty ==> s.bufs[k].blkno < Blocks(s.image)
    decreases |todo|
  {
    if todo != [] {
      var i := todo[0];
      assert todo == [i] + todo[1..] && i !in todo[1..];
      WithoutInBounds(s.bufs, s.io, i);
      SyncReport(if Flushable(s, i) then FlushOne(s, i) else s, todo[1..]);
    }
  }

  /** The device refuses the buffer. */
  predicate Refuses(s: State, i: nat) {
    i < |s.bufs| && s.bufs[i].dirty && s.bufs[i].blkno >= Blocks(s.image)
  }

  /** The dirty buffers of a list whose block the device does not have. */
  ghost function Refused(s: State, todo: seq<nat>): set<nat> { set i | i in todo && Refuses(s, i) }

  lemma {:induction false} RefusedLater(s: State, i: nat, rest: seq<nat>)
    requires Flushable(s, i) && |s.bufs[i].data| == 512 && i !in rest
    ensures Refused(FlushOne(s, i), rest) == Refused(s, rest)
  {
    var s' := FlushOne(s, i);
    assert Blocks(s'.image) == Blocks(s.image);
    forall j | j in rest ensures Refuses(s', j) == Refuses(s, j) { }
    hide Refuses, FlushOne;
  }

  lemma {:induction false} RefusedFirst(s: State, i: nat, rest: seq<nat>)
    requires i !in rest
    ensures |Refused(s, [i] + rest)| == |Refused(s, rest)| + (if Refuses(s, i) then 1 else 0)
  {
    hide Refuses;
    assert Refused(s, [i] + rest) == if Refuses(s, i) then Refused(s, rest) + {i} else Refused(s, rest);
  }

  /** What syncing reports: the number of blocks that could not be written. */
  lemma {:induction false} SyncCounts(s: State, todo: seq<nat>)
    requires Shaped(s) && NoDup(todo) && InBounds(s.bufs, todo)
    ensures SyncList(s, todo).1 == |Refused(s, todo)|
    decreases |todo|
  {
    if todo != [] {
      var i, rest := todo[0], todo[1..];
      assert todo == [i] + rest && i !in rest;
      WithoutInBounds(s.bufs, s.io, i);
      var s' := if Flushable(s, i) then FlushOne(s, i) else s;
      if Flushable(s, i) { RefusedLater(s, i, rest); }
      RefusedFirst(s, i, rest);
      hide Refused, FlushOne;
      SyncCounts(s', rest);
      SyncListStep(s, todo, 0);
      assert todo[0..] == todo;
    }
  }

  /** After a sync only blocks the device does not have are still dirty; it reports 0 exactly when
      there were none, and then the image is the abstract disk, block for block. */
  lemma {:induction false} SyncWritesBack(s: State, disk: seq<seq<Byte>>)
    requires Inv(s, disk)
    ensures var (s', rv) := Sync(s);
      && Inv(s', disk)
      && (forall k :: 0 <= k < |s.bufs| ==>
            s'.bufs[k] == s.bufs[k].(dirty := s.bufs[k].dirty && s.bufs[k].blkno >= |disk|))
      && (rv == 0 <==> !Poisoned(s))
      && (rv == 0 ==> forall b :: 0 <= b < |disk| ==> BlockAt(s'.image, b) == disk[b])
  {
    SyncKeepsInv(s, disk, s.io);
    SyncReport(s, s.io);
    var (s', rv) := Sync(s);
    forall k: nat | k < |s.bufs|
      ensures s'.bufs[k] == s.bufs[k].(dirty := s.bufs[k].dirty && s.bufs[k].blkno >= |disk|)
    {
      SyncEffect(s, s.io, k);
    }
    if Poisoned(s) {
      var k: nat :| 0 <= k < |s.bufs| && s.bufs[k].dirty && s.bufs[k].blkno >= Blocks(s.image);
      assert k in s.io;
    }
  }

  // ------------------------------------------------------------------- getting a buffer

  /** Exchanging one buffer for another that is equally dirty, agrees with the disk and holds a
      block no other buffer holds. */
  lemma {:induction false} ReplaceKeepsInv(s: State, disk: seq<seq<Byte>>, i: nat, b: Buf)
    requires Inv(s, disk) && i < |s.bufs| && |b.data| == 512 && Coherent(b, disk)
    requires b.dirty == s.bufs[i].dirty && (b.dirty ==> b.blkno == s.bufs[i].blkno)
    requires !b.unused ==> forall j :: 0 <= j < |s.bufs| && j != i ==> !Holds(s.bufs[j], b.blkno)
    ensures Inv(s.(bufs := s.bufs[i := b]), disk)
  {
    var s' := s.(bufs := s.bufs[i := b]);
    forall c | 0 <= c < |disk| ensures DirtyCached(s'.bufs, c) || BlockAt(s'.image, c) == disk[c] {
      if DirtyCached(s.bufs, c) {
        var k :| 0 <= k < |s.bufs| && s.bufs[k].dirty && s.bufs[k].blkno == c;
        assert s'.bufs[k].dirty && s'.bufs[k].blkno == c;
      }
    }
  }

  lemma {:induction false} OnlyHolder(s: State, disk: seq<seq<Byte>>, i: nat, j: nat)
    requires Inv(s, disk) && i < |s.bufs| && j < |s.bufs| && i != j && !s.bufs[i].unused
    ensures !Holds(s.bufs[j], s.bufs[i].blkno)
  {
    if i < j { assert !s.bufs[j].unused ==> s.bufs[i].blkno != s.bufs[j].blkno; }
    else { assert !s.bufs[j].unused ==> s.bufs[j].blkno != s.bufs[i].blkno; }
  }

  /** What one pass hands out when nobody is using the cache. */
  lemma {:induction false} TryGetOutcome(s: State, disk: seq<seq<Byte>>, blk: nat, t: Tid)
    requires Inv(s, disk) && Idle(s)
    ensures var (s', got) := TryGet(s, blk, t);
      && !got.Busy?
      && (got.Nothing? ==> s' == s)
      && (got.Nothing? <==> forall i :: 0 <= i < |s.bufs| ==> s.bufs[i].dirty && s.bufs[i].blkno != blk)
      && (got.Hit? ==>
            && Holds(s.bufs[got.i], blk)
            && s' == s.(bufs := s.bufs[got.i := s.bufs[got.i].(busy := true, usr := Some(t))]))
      && (got.Fresh? ==>
            && !s.bufs[got.i].dirty
            && (forall i :: 0 <= i < |s.bufs| ==> !Holds(s.bufs[i], blk))
            && s' == s.(bufs := s.bufs[got.i := Buf(blk, true, false, false, false, Some(t), s.bufs[got.i].data)]))
  {
    assert forall i: nat :: i < |s.bufs| ==> i in s.list && Coherent(s.bufs[i], disk);
  }

  lemma {:induction false} TryGetKeepsInv(s: State, disk: seq<seq<Byte>>, blk: nat, t: Tid)
    requires Inv(s, disk) && Idle(s)
    ensures Inv(TryGet(s, blk, t).0, disk)
  {
    TryGetOutcome(s, disk, blk, t);
    var (s', got) := TryGet(s, blk, t);
    if got.Hit? {
      forall j: nat | j < |s.bufs| && j != got.i ensures !Holds(s.bufs[j], blk) { OnlyHolder(s, disk, got.i, j); }
      ReplaceKeepsInv(s, disk, got.i, s'.bufs[got.i]);
    } else if got.Fresh? {
      ReplaceKeepsInv(s, disk, got.i, s'.bufs[got.i]);
    }
  }

  /** A buffer reserved for block `blk`, all others idle. */
  ghost predicate Reserved(s: State, disk: seq<seq<Byte>>, i: nat, blk: nat) {
    Inv(s, disk) && i < |s.bufs| && IdleBut(s, i) && Holds(s.bufs[i], blk)
  }

  /** Every buffer is dirty with a block the device does not have, and none holds `blk`. */
  ghost predicate Stuck(s: State, blk: nat) {
    forall i :: 0 <= i < |s.bufs| ==>
      s.bufs[i].dirty && s.bufs[i].blkno >= Blocks(s.image) && s.bufs[i].blkno != blk
  }

  /** What `get_buffer` delivers: `Nothing`, the PANIC, exactly for a stuck cache, and otherwise a
      buffer reserved for the block, fresh when no buffer held it. */
  ghost predicate Delivers(s: State, disk: seq<seq<Byte>>, blk: nat, t: Tid, s': State, got: Got) {
    && !got.Busy?
    && (got.Nothing? <==> Stuck(s, blk))
    && (!got.Nothing? ==> Reserved(s', disk, got.i, blk))
    && (Poisoned(s') <==> Poisoned(s))
    && (got.Hit? ==>
          && got.i < |s.bufs| && Holds(s.bufs[got.i], blk)
          && s' == s.(bufs := s.bufs[got.i := s.bufs[got.i].(busy := true, usr := Some(t))]))
    && (got.Fresh? ==>
          && got.i < |s'.bufs| && !s'.bufs[got.i].valid && !s'.bufs[got.i].dirty
          && (forall i :: 0 <= i < |s.bufs| ==> !Holds(s.bufs[i], blk)))
  }

  /** Poison depends on the dirty buffers and their blocks only. */
  lemma {:induction false} SamePoison(s: State, s': State)
    requires |s'.bufs| == |s.bufs| && Blocks(s'.image) == Blocks(s.image)
    requires forall i :: 0 <= i < |s.bufs| ==>
      (s.bufs[i].dirty && s.bufs[i].blkno >= Blocks(s.image) <==>
       s'.bufs[i].dirty && s'.bufs[i].blkno >= Blocks(s.image))
    ensures Poisoned(s') <==> Poisoned(s)
  {
    if Poisoned(s) {
      var i :| 0 <= i < |s.bufs| && s.bufs[i].dirty && s.bufs[i].blkno >= Blocks(s.image);
      assert s'.bufs[i].dirty && s'.bufs[i].blkno >= Blocks(s'.image);
    }
    if Poisoned(s') {
      var i :| 0 <= i < |s.bufs| && s'.bufs[i].dirty && s'.bufs[i].blkno >= Blocks(s'.image);
      assert s.bufs[i].dirty && s.bufs[i].blkno >= Blocks(s.image);
    }
  }

  lemma {:induction false} FirstPassDelivers(s: State, disk: seq<seq<Byte>>, blk: nat, t: Tid)
    requires Inv(s, disk) && Idle(s) && !TryGet(s, blk, t).1.Nothing?
    ensures var (s', got) := TryGet(s, blk, t);
      Delivers(s, disk, blk, t, s', got)
  {
    hide TryGet;
    TryGetOutcome(s, disk, blk, t);
    TryGetKeepsInv(s, disk, blk, t);
    var (s', got) := TryGet(s, blk, t);
    SamePoison(s, s');
  }

  lemma {:induction false} SecondPassDelivers(s: State, s1: State, disk: seq<seq<Byte>>, blk: nat, t: Tid)
    requires Idle(s) && |s1.bufs| == |s.bufs| && Inv(s1, disk) && |disk| == Blocks(s.image)
    requires forall k :: 0 <= k < |s.bufs| ==> s.bufs[k].dirty && s.bufs[k].blkno != blk
    requires forall k :: 0 <= k < |s.bufs| ==> s1.bufs[k] == s.bufs[k].(dirty := s.bufs[k].blkno >= |disk|)
    ensures var (s', got) := TryGet(s1, blk, t);
      Delivers(s, disk, blk, t, s', got)
  {
    hide TryGet;
    TryGetOutcome(s1, disk, blk, t);
    TryGetKeepsInv(s1, disk, blk, t);
    var (s', got) := TryGet(s1, blk, t);
    SamePoison(s, s');
  }

  /** In every state `get_buffer` delivers: one sync is enough to free a buffer unless every buffer
      is dirty with a block the device does not have. */
  lemma {:induction false} GetDelivers(s: State, disk: seq<seq<Byte>>, blk: nat, t: Tid)
    requires Inv(s, disk) && Idle(s)
    ensures var (s', got) := Get(s, blk, t);
      Delivers(s, disk, blk, t, s', got)
  {
    if TryGet(s, blk, t).1.Nothing? {
      TryGetOutcome(s, disk, blk, t);
      SyncWritesBack(s, disk);
      SecondPassDelivers(s, Synced(s), disk, blk, t);
    } else {
      FirstPassDelivers(s, disk, blk, t);
    }
  }

  // -------------------------------------------------------------------------- the calls

  /** Releasing the reserved buffer leaves a quiet cache. */
  lemma {:induction false} ReleaseKeepsInv(s: State, disk: seq<seq<Byte>>, i: nat)
    requires Inv(s, disk) && i < |s.bufs| && IdleBut(s, i) && !s.bufs[i].unused
    ensures Inv(Release(s, i), disk) && Idle(Release(s, i))
  {
    var b := s.bufs[i].(busy := false, usr := None);
    forall j: nat | j < |s.bufs| && j != i ensures !Holds(s.bufs[j], b.blkno) { OnlyHolder(s, disk, i, j); }
    ReplaceKeepsInv(s, disk, i, b);
    WithoutMembers(s.list, i);
    var l := Without(s.list, i);
    PushNoDup(l, i);
    assert forall j :: j in [i] + l <==> j == i || j in l;
  }

  /** Reading a block into the buffer reserved for it. */
  lemma {:induction false} UpdateKeepsInv(s: State, disk: seq<seq<Byte>>, i: nat, blk: nat)
    requires Reserved(s, disk, i, blk) && !s.bufs[i].dirty
    ensures var (s', status) := Update(s, i);
      && Reserved(s', disk, i, blk)
      && (status == 0 <==> blk < |disk|)
      && (status == 0 ==> s'.bufs[i].data == disk[blk])
  {
    if blk < |disk| {
      assert !DirtyCached(s.bufs, blk) by {
        forall j: nat | j < |s.bufs| && j != i ensures !Holds(s.bufs[j], blk) { OnlyHolder(s, disk, i, j); }
      }
      var b := s.bufs[i].(data := BlockAt(s.image, blk), valid := true);
      forall j: nat | j < |s.bufs| && j != i ensures !Holds(s.bufs[j], blk) { OnlyHolder(s, disk, i, j); }
      ReplaceKeepsInv(s, disk, i, b);
    }
  }

  /** Some buffer holds the block with data not yet written out and not marked valid. */
  ghost predicate NeedsSync(s: State, blk: nat) {
    exists i :: 0 <= i < |s.bufs| && Holds(s.bufs[i], blk) && s.bufs[i].dirty && !s.bufs[i].valid
  }

  lemma {:induction false} NeedsSyncAfterGet(s: State, disk: seq<seq<Byte>>, blk: nat, t: Tid)
    requires Inv(s, disk) && Idle(s) && !Get(s, blk, t).1.Nothing?
    requires var (s1, got) := Get(s, blk, t); Delivers(s, disk, blk, t, s1, got)
    ensures var (s1, got) := Get(s, blk, t);
      got.i < |s1.bufs| && (NeedsSync(s, blk) <==> s1.bufs[got.i].dirty && !s1.bufs[got.i].valid)
  {
    hide Get;
    var (s1, got) := Get(s, blk, t);
    var i := got.i;
    if got.Hit? {
      forall j: nat | j < |s.bufs| && j != i ensures !Holds(s.bufs[j], blk) { OnlyHolder(s, disk, i, j); }
      if s.bufs[i].dirty && !s.bufs[i].valid { assert NeedsSync(s, blk); }
    }
  }

  /** A read of a buffer that is not valid, after its sync: read in and released. */
  lemma {:induction false} ReadFilled(s: State, disk: seq<seq<Byte>>, i: nat, blk: nat)
    requires Reserved(s, disk, i, blk) && !s.bufs[i].dirty
    ensures var (s1, status) := Update(s, i);
      var s' := Release(s1, i);
      && Inv(s', disk) && Idle(s') && (Poisoned(s') <==> Poisoned(s))
      && (status == 0 <==> blk < |disk|) && (status == 0 ==> s1.bufs[i].data == disk[blk])
  {
    UpdateKeepsInv(s, disk, i, blk);
    var s1 := Update(s, i).0;
    ReleaseKeepsInv(s1, disk, i);
    SamePoison(s, Release(s1, i));
    hide Inv, Idle, Poisoned;
  }

  /** What a sync leaves of a reserved buffer. */
  lemma {:induction false} SyncReserved(s: State, disk: seq<seq<Byte>>, i: nat, blk: nat)
    requires Reserved(s, disk, i, blk) && s.bufs[i].dirty
    ensures var s' := Synced(s);
      && Reserved(s', disk, i, blk) && (Poisoned(s') <==> Poisoned(s))
      && (Sync(s).1 == 0 <==> !Poisoned(s)) && (Sync(s).1 == 0 ==> !s'.bufs[i].dirty)
  {
    SyncWritesBack(s, disk);
    SamePoison(s, Synced(s));
    hide SyncList, DirtyCached, Coherent;
  }

  lemma {:induction false} ReleaseReserved(s: State, disk: seq<seq<Byte>>, i: nat, blk: nat)
    requires Reserved(s, disk, i, blk)
    ensures var s' := Release(s, i); Inv(s', disk) && Idle(s') && (Poisoned(s') <==> Poisoned(s))
  {
    ReleaseKeepsInv(s, disk, i);
    SamePoison(s, Release(s, i));
  }

  lemma {:induction false} ReadReserved(s: State, disk: seq<seq<Byte>>, i: nat, blk: nat)
    requires Reserved(s, disk, i, blk)
    ensures var (s', out) := FinishRead(s, i);
      && out.Done? && Inv(s', disk) && Idle(s') && (Poisoned(s') <==> Poisoned(s))
      && (out.status == 0 <==> blk < |disk| && !(Poisoned(s) && s.bufs[i].dirty && !s.bufs[i].valid))
      && (out.status == 0 ==> out.data == disk[blk])
  {
    assert Coherent(s.bufs[i], disk);
    if s.bufs[i].valid {
      ReleaseKeepsInv(s, disk, i);
      SamePoison(s, Release(s, i));
      hide Inv, Idle, Poisoned;
    } else if s.bufs[i].dirty {
      SyncReserved(s, disk, i, blk);
      hide Inv, Idle, Poisoned, SyncList;
      var s2 := Synced(s);
      if Sync(s).1 == 0 { ReadFilled(s2, disk, i, blk); } else { ReleaseReserved(s2, disk, i, blk); }
    } else {
      hide Inv, Idle, Poisoned;
      ReadFilled(s, disk, i, blk);
    }
  }

  /** A read either panics, for a stuck cache, or returns; it returns OK exactly when the device
      has the block and no unwritable buffer stands in the way of a sync it needs, and then the
      data is the abstract disk's. The abstract disk is unchanged. */
  lemma {:induction false} ReadAgrees(s: State, disk: seq<seq<Byte>>, blk: nat, t: Tid)
    requires Inv(s, disk) && Idle(s)
    ensures var (s', out) := Read(s, blk, t);
      && !out.Waits?
      && (out.Panic? <==> Stuck(s, blk))
      && (out.Done? ==> Inv(s', disk) && Idle(s') && (Poisoned(s') <==> Poisoned(s)))
      && (out.Done? ==> (out.status == 0 <==> blk < |disk| && !(Poisoned(s) && NeedsSync(s, blk))))
      && (out.Done? && out.status == 0 ==> out.data == disk[blk])
  {
    GetDelivers(s, disk, blk, t);
    var (s1, got) := Get(s, blk, t);
    if !got.Nothing? {
      NeedsSyncAfterGet(s, disk, blk, t);
      ReadReserved(s1, disk, got.i, blk);
    }
  }

  /** The abstract disk after a write; a block the device does not have is nowhere. */
  function Put(disk: seq<seq<Byte>>, blk: nat, d: seq<Byte>): (r: seq<seq<Byte>>)
    ensures |r| == |disk|
  {
    if blk < |disk| then disk[blk := d] else disk
  }

  lemma {:induction false} QueueMembers(s: State, i: nat)
    requires Shaped(s) && i < |s.bufs| && NoDup(s.io)
    ensures NoDup(Queue(s, i).io)
    ensures forall j :: j in Queue(s, i).io <==> j in s.io || j == i
  {
    WithoutMembers(s.io, i);
    var l := Without(s.io, i);
    PushNoDup(l, i);
    if i !in s.io { PushNoDup(s.io, i); }
    assert forall j :: j in l + [i] <==> j in l || j == i;
    assert forall j :: j in s.io + [i] <==> j in s.io || j == i;
  }

  /** Overwriting the reserved buffer is a write to the abstract disk. */
  lemma {:induction false} OverwriteAgrees(s: State, disk: seq<seq<Byte>>, i: nat, blk: nat, d: seq<Byte>)
    requires Reserved(s, disk, i, blk) && |d| == 512
    ensures Reserved(Overwrite(s, i, d), Put(disk, blk, d), i, blk)
  {
    var b := s.bufs[i].(data := d, dirty := true);
    var s1, disk' := s.(bufs := s.bufs[i := b]), Put(disk, blk, d);
    QueueMembers(s1, i);
    forall j: nat | j < |s.bufs| && j != i ensures !Holds(s.bufs[j], blk) { OnlyHolder(s, disk, i, j); }
    assert Coherent(s.bufs[i], disk);
    forall j: nat | j < |s.bufs| && j != i ensures Coherent(s.bufs[j], disk') { assert Coherent(s.bufs[j], disk); }
    forall c | 0 <= c < |disk'| ensures DirtyCached(s1.bufs, c) || BlockAt(s1.image, c) == disk'[c] {
      if c == blk {
        assert s1.bufs[i].dirty && s1.bufs[i].blkno == c;
      } else if DirtyCached(s.bufs, c) {
        var k :| 0 <= k < |s.bufs| && s.bufs[k].dirty && s.bufs[k].blkno == c;
        assert s1.bufs[k].dirty && s1.bufs[k].blkno == c;
      }
    }
  }

  lemma {:induction false} PoisonAfterWrite(s: State, i: nat, d: seq<Byte>)
    requires Shaped(s) && i < |s.bufs| && |d| == 512
    ensures Poisoned(FinishWrite(s, i, d).0) <==> Poisoned(s) || s.bufs[i].blkno >= Blocks(s.image)
  {
    var s' := FinishWrite(s, i, d).0;
    if Poisoned(s) {
      var k :| 0 <= k < |s.bufs| && s.bufs[k].dirty && s.bufs[k].blkno >= Blocks(s.image);
      assert s'.bufs[k].dirty && s'.bufs[k].blkno >= Blocks(s'.image);
    }
    if s.bufs[i].blkno >= Blocks(s.image) { assert s'.bufs[i].dirty; }
    if Poisoned(s') {
      var k :| 0 <= k < |s'.bufs| && s'.bufs[k].dirty && s'.bufs[k].blkno >= Blocks(s'.image);
      assert k != i ==> s.bufs[k].dirty && s.bufs[k].blkno >= Blocks(s.image);
    }
  }

  /** A write either panics, for a stuck cache, or returns OK having written the abstract disk. It
      poisons the cache exactly when the device does not have the block. */
  lemma {:induction false} WriteAgrees(s: State, disk: seq<seq<Byte>>, blk: nat, d: seq<Byte>, t: Tid)
    requires Inv(s, disk) && Idle(s) && |d| == 512
    ensures var (s', out) := Write(s, blk, d, t);
      && !out.Waits?
      && (out.Panic? <==> Stuck(s, blk))
      && (out.Done? ==> out.status == 0 && Inv(s', Put(disk, blk, d)) && Idle(s'))
      && (out.Done? ==> (Poisoned(s') <==> Poisoned(s) || blk >= |disk|))
  {
    GetDelivers(s, disk, blk, t);
    var (s1, got) := Get(s, blk, t);
    if !got.Nothing? {
      OverwriteAgrees(s1, disk, got.i, blk, d);
      var s2 := Overwrite(s1, got.i, d);
      ReleaseKeepsInv(s2, Put(disk, blk, d), got.i);
      PoisonAfterWrite(s1, got.i, d);
    }
  }

  // --------------------------------------------------------------------- whole sequences

  datatype Call = ReadCall(blk: nat) | WriteCall(blk: nat, d: seq<Byte>) | SyncCall

  /** The block exists and a write brings a whole block. */
  predicate Proper(c: Call, blocks: nat) {
    match c
    case ReadCall(blk) => blk < blocks
    case WriteCall(blk, d) => blk < blocks && |d| == 512
    case SyncCall => true
  }

  function Exec(s: State, c: Call, t: Tid): (State, Outcome)
    requires Shaped(s) && (c.WriteCall? ==> |c.d| == 512)
  {
    match c
    case ReadCall(blk) => Read(s, blk, t)
    case WriteCall(blk, d) => Write(s, blk, d, t)
    case SyncCall => (Synced(s), Done(Sync(s).1, []))
  }

  /** The disk a caller has in mind. */
  function AbstractDisk(disk: seq<seq<Byte>>, c: Call): seq<seq<Byte>> {
    if c.WriteCall? then Put(disk, c.blk, c.d) else disk
  }

  /** What a caller expects back: OK, and for a read the block last written. */
  ghost predicate Expected(disk: seq<seq<Byte>>, c: Call, out: Outcome) {
    out.Done? && out.status == 0 && (c.ReadCall? && c.blk < |disk| ==> out.data == disk[c.blk])
  }

  /** Every outcome of the run is the expected one, and every successful sync leaves the image
      equal to the disk. */
  ghost predicate RunsTransparently(s: State, disk: seq<seq<Byte>>, calls: seq<Call>, t: Tid)
    requires Shaped(s) && forall k :: 0 <= k < |calls| ==> Proper(calls[k], |disk|)
    decreases |calls|
  {
    calls == [] ||
    (assert Proper(calls[0], |disk|);
     var (s', out) := Exec(s, calls[0], t);
     && Expected(disk, calls[0], out)
     && Shaped(s')
     && |disk| == Blocks(s'.image)
     && (calls[0].SyncCall? ==> forall b :: 0 <= b < |disk| ==> BlockAt(s'.image, b) == disk[b])
     && RunsTransparently(s', AbstractDisk(disk, calls[0]), calls[1..], t))
  }

  lemma {:induction false} UnpoisonedNotStuck(s: State, blk: nat)
    requires |s.bufs| >= 1 && !Poisoned(s)
    ensures !Stuck(s, blk)
  {
    assert !(s.bufs[0].dirty && s.bufs[0].blkno >= Blocks(s.image));
  }

  /** The call has the expected outcome and leaves the cache representing the disk it should. */
  ghost predicate Agrees(s: State, disk: seq<seq<Byte>>, c: Call, s': State, out: Outcome) {
    && Expected(disk, c, out)
    && Inv(s', AbstractDisk(disk, c)) && Idle(s') && !Poisoned(s') && |s'.bufs| == |s.bufs|
    && |disk| == Blocks(s'.image)
    && (c.SyncCall? ==> forall b :: 0 <= b < |disk| ==> BlockAt(s'.image, b) == disk[b])
  }

  lemma {:induction false} CallAgrees(s: State, disk: seq<seq<Byte>>, c: Call, t: Tid)
    requires Inv(s, disk) && Idle(s) && !Poisoned(s) && |s.bufs| >= 1 && Proper(c, |disk|)
    ensures var (s', out) := Exec(s, c, t); Agrees(s, disk, c, s', out)
  {
    assert Shaped(s) && |disk| == Blocks(s.image);
    if c.SyncCall? {
      SyncWritesBack(s, disk);
      SamePoison(s, Synced(s));
      hide Inv, Idle, Poisoned, SyncList;
    } else {
      UnpoisonedNotStuck(s, c.blk);
      hide Inv, Idle, Poisoned, Read, Write, Stuck;
      if c.ReadCall? { ReadAgrees(s, disk, c.blk, t); } else { WriteAgrees(s, disk, c.blk, c.d, t); }
    }
  }

  /** Main result: from any state representing a disk with nothing unwritable, every sequence of
      reads, writes and syncs of existing blocks behaves as if on the plain disk; no call panics. */
  lemma {:induction false} CacheIsTransparent(s: State, disk: seq<seq<Byte>>, calls: seq<Call>, t: Tid)
    requires Inv(s, disk) && Idle(s) && !Poisoned(s) && |s.bufs| >= 1
    requires Shaped(s) && forall k :: 0 <= k < |calls| ==> Proper(calls[k], |disk|)
    ensures RunsTransparently(s, disk, calls, t)
    decreases |calls|
  {
    if calls != [] {
      assert Proper(calls[0], |disk|);
      CallAgrees(s, disk, calls[0], t);
      var (s', out) := Exec(s, calls[0], t);
      var disk' := AbstractDisk(disk, calls[0]);
      assert |disk'| == |disk| && Shaped(s');
      hide Inv, Idle, Poisoned, Exec;
      CacheIsTransparent(s', disk', calls[1..], t);
    }
  }

  /** The blocks of an image. */
  ghost function DiskOf(image: seq<Byte>): seq<seq<Byte>> {
    seq(Blocks(image), b requires 0 <= b < Blocks(image) => BlockAt(image, b))
  }

  /** A fresh cache represents the blocks of its image. */
  lemma {:induction false} FreshCache(buffers: nat, image: seq<Byte>)
    ensures var s := Init(buffers, image); Inv(s, DiskOf(image)) && Idle(s) && !Poisoned(s)
  {
    var s := Init(buffers, image);
    forall i: nat ensures i in s.list <==> i < buffers {
      if i < buffers { assert s.list[i] == i; }
    }
  }

  /** A poisoned cache spoils reads: a block the device has, not cached before, written and read
      back, is refused, because the read must sync and the sync reports the unwritable buffer. */
  lemma {:induction false} PoisonSpoilsReads(s: State, disk: seq<seq<Byte>>, blk: nat, d: seq<Byte>, t: Tid)
    requires Inv(s, disk) && Idle(s) && Poisoned(s) && !Stuck(s, blk) && |d| == 512
    requires forall i :: 0 <= i < |s.bufs| ==> !Holds(s.bufs[i], blk)
    ensures var s' := Write(s, blk, d, t).0;
      Shaped(s') && Read(s', blk, t).1.Done? && Read(s', blk, t).1.status != 0
  {
    WriteAgrees(s, disk, blk, d, t);
    GetDelivers(s, disk, blk, t);
    var (s1, got) := Get(s, blk, t);
    var s' := Write(s, blk, d, t).0;
    assert Holds(s'.bufs[got.i], blk) && s'.bufs[got.i].dirty && !s'.bufs[got.i].valid;
    ReadAgrees(s', Put(disk, blk, d), blk, t);
  }

  /** One write to block 7 of a one-block device poisons a fresh cache of two buffers in this way. */
  lemma {:induction false} ForeignWritePoisons(d: seq<Byte>, t: Tid)
    requires |d| == 512
    ensures var s1 := Write(Init(2, d), 7, d, t).0;
      && Shaped(s1) && Inv(s1, [d]) && Idle(s1) && Poisoned(s1) && !Stuck(s1, 0)
      && forall i :: 0 <= i < |s1.bufs| ==> !Holds(s1.bufs[i], 0)
  {
    var s0 := Init(2, d);
    FreshCache(2, d);
    assert DiskOf(d) == [d] by { assert BlockAt(d, 0) == d; }
    assert s0.list == [0, 1] && s0.bufs == [NewBuf(), NewBuf()];
    assert TryGet(s0, 7, t).1 == Fresh(1);
    WriteAgrees(s0, [d], 7, d, t);
    assert !s0.bufs[0].dirty;
    var s1 := Write(s0, 7, d, t).0;
    assert s1.bufs[0] == NewBuf();
  }
}
