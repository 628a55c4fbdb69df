/** The buffer cache as the device object of src/bbuf.c, whose calls update it in place; each is
    proved to have exactly the effect of its function in BufferCache. */
module BlockDevice {
  import opened Wrappers
  import opened RamDisk
  import opened Threads
  import opened Queues
  import opened BufferCache

  class Device {
    var bufs: seq<Buf>
    var list: seq<nat>
    var io: seq<nat>
    var image: seq<Byte>
    ghost var disk: seq<seq<Byte>>   // the blocks as a caller sees them

    ghost function Abs(): State
      reads this
    {
      State(bufs, list, io, image)
    }

    ghost predicate Valid()
      reads this
    {
      Shaped(Abs())
    }

    /** No call is in progress and the cache represents `disk`. */
    ghost predicate Quiet()
      reads this
    {
      Inv(Abs(), disk) && Idle(Abs())
    }

    /** A device with its blocks and no buffers yet. */
    constructor (content: seq<Byte>)
      ensures Quiet() && Abs() == BufferCache.Init(0, content) && disk == DiskOf(content)
    {
      bufs, list, io, image := [], [], [], content;
      disk := DiskOf(content);
      new;
      FreshCache(0, content);
      assert Abs() == BufferCache.Init(0, content);
    }

    /** `bdev_init_buffer_cache`, where `heap` is how many `kmalloc`s succeed: -1 exactly when they
        are too few, and the buffers made so far stay. */
    method InitBufferCache(blks: nat, heap: nat) returns (status: int)
      requires Quiet() && Abs() == BufferCache.Init(0, image) && disk == DiskOf(image)
      modifies this`bufs, this`list
      ensures status == if blks <= heap then 0 else -1
      ensures Quiet() && Abs() == BufferCache.Init(if blks <= heap then blks else heap, image)
    {
      status := 0;
      var left: nat := blks;
      while left > 0
        invariant left <= blks && |bufs| == |list| == blks - left <= heap && status == 0
        invariant forall k :: 0 <= k < |bufs| ==> bufs[k] == NewBuf() && list[k] == k
        invariant io == [] && image == old(image)
      {
        if |bufs| == heap {
          status := -1;
          break;
        }
        list := list + [|bufs|];
        bufs := bufs + [NewBuf()];
        left := left - 1;
      }
      ghost var made := BufferCache.Init(|bufs|, image);
      assert bufs == made.bufs && list == made.list;
      FreshCache(|bufs|, image);
    }

    /** The forward scan of `get_buffer`. */
    method FindHit(blk: nat) returns (r: Option<nat>)
      requires Valid()
      ensures r == FirstHit(bufs, list, blk)
    {
      var k := 0;
      while k < |list|
        invariant k <= |list| && FirstHit(bufs, list, blk) == FirstHit(bufs, list[k..], blk)
      {
        var b := bufs[list[k]];
        if !b.unused && b.blkno == blk { return Some(list[k]); }
        assert list[k..][1..] == list[k + 1..];
        k := k + 1;
      }
      return None;
    }

    /** The reverse scan of `get_buffer`. */
    method FindAvailable() returns (r: Option<nat>)
      requires Valid()
      ensures r == LastAvailable(bufs, list)
    {
      var k := |list|;
      assert list[..k] == list;
      while k > 0
        invariant k <= |list| && LastAvailable(bufs, list) == LastAvailable(bufs, list[..k])
      {
        k := k - 1;
        var b := bufs[list[k]];
        if (!b.busy && !b.dirty) || b.unused { return Some(list[k]); }
        assert list[..k + 1][..k] == list[..k];
      }
      return None;
    }

    /** One locked pass of `get_buffer`. */
    method TryGetBuffer(blk: nat, t: Tid) returns (got: Got)
      requires Valid()
      modifies this`bufs
      ensures Valid() && (Abs(), got) == TryGet(old(Abs()), blk, t)
    {
      var hit := FindHit(blk);
      if hit.Some? {
        var b := bufs[hit.value];
        if !b.busy && b.usr == None {
          bufs := bufs[hit.value := b.(busy := true, usr := Some(t))];
          return Hit(hit.value);
        }
        return Busy(hit.value);
      }
      var free := FindAvailable();
      if free.Some? {
        bufs := bufs[free.value := Buf(blk, true, false, false, false, Some(t), bufs[free.value].data)];
        return Fresh(free.value);
      }
      return Nothing;
    }

    /** One buffer of the walk: written out and clean, or counted if the device refuses it. */
    method FlushEntry(i: nat) returns (failed: nat)
      requires Valid() && i < |bufs|
      modifies this`bufs, this`io, this`image
      ensures Valid() && Abs() == (if Flushable(old(Abs()), i) then FlushOne(old(Abs()), i) else old(Abs()))
      ensures |bufs| == |old(bufs)|
      ensures failed == if old(bufs)[i].dirty && !Flushable(old(Abs()), i) then 1 else 0
    {
      failed := 0;
      if bufs[i].dirty {
        if bufs[i].blkno < Blocks(image) {
          WithoutInBounds(bufs, io, i);
          image := PutBlock(image, bufs[i].blkno, bufs[i].data);
          io := Without(io, i);
          bufs := bufs[i := bufs[i].(dirty := false)];
        } else {
          failed := 1;
        }
      }
    }

    /** The loop of `sync_buffer` over the buffers `todo`. */
    method Walk(todo: seq<nat>) returns (rv: nat)
      requires Valid() && InBounds(bufs, todo)
      modifies this`bufs, this`io, this`image
      ensures Valid() && (Abs(), rv) == SyncList(old(Abs()), todo)
    {
      rv := 0;
      ghost var goal := SyncList(Abs(), todo);
      var k := 0;
      assert todo[0..] == todo;
      while k < |todo|
        invariant k <= |todo| && Valid() && InBounds(bufs, todo)
        invariant goal.0 == SyncList(Abs(), todo[k..]).0 && goal.1 == rv + SyncList(Abs(), todo[k..]).1
      {
        SyncListStep(Abs(), todo, k);
        hide SyncList, FlushOne, Flushable;
        var failed := FlushEntry(todo[k]);
        rv := rv + failed;
        k := k + 1;
      }
      assert todo[k..] == [];
    }

    /** `sync_buffer`: the walk saves its successor, so it visits the list as it was at the start. */
    method SyncBuffer() returns (rv: nat)
      requires Valid()
      modifies this`bufs, this`io, this`image
      ensures Valid() && Abs() == Synced(old(Abs())) && rv == Sync(old(Abs())).1
      ensures NoDup(old(io)) ==> rv == |Refused(old(Abs()), old(io))|
      ensures old(Quiet()) ==> Quiet() && (rv == 0 <==> !Poisoned(old(Abs())))
      ensures old(Quiet()) && rv == 0 ==>
        |disk| == Blocks(image) && forall b :: 0 <= b < |disk| ==> BlockAt(image, b) == disk[b]
    {
      ghost var s := Abs();
      if Quiet() { SyncWritesBack(s, disk); }
      if NoDup(io) { SyncCounts(s, io); }
      rv := Walk(io);
      assert Abs() == Sync(s).0;
    }

    /** `queue_buffer`. */
    method QueueBuffer(i: nat)
      requires Valid() && i < |bufs|
      modifies this`io
      ensures Valid() && Abs() == Queue(old(Abs()), i)
      ensures io == Without(old(io), i) + [i]
    {
      WithoutInBounds(bufs, io, i);
      if i !in io { WithoutAbsent(io, i); }
      var k := 0;
      while k < |io|
        invariant k <= |io| && i !in io[..k] && io == old(io)
      {
        if io[k] == i {
          io := Without(io, i) + [i];
          return;
        }
        k := k + 1;
      }
      io := io + [i];
    }

    /** `release_buffer`. */
    method ReleaseBuffer(i: nat)
      requires Valid() && i < |bufs|
      modifies this`list, this`bufs
      ensures Valid() && Abs() == Release(old(Abs()), i)
      ensures list == [i] + Without(old(list), i) && bufs == old(bufs)[i := bufs[i]]
      ensures !bufs[i].busy && bufs[i].usr == None && bufs[i] == old(bufs)[i].(busy := false, usr := None)
    {
      ReleaseInBounds(Abs(), i);
      list := [i] + Without(list, i);
      bufs := bufs[i := bufs[i].(busy := false, usr := None)];
    }

    /** `get_buffer` up to the point where it would wait: one sync, one retry, then PANIC. */
    method GetBuffer(blk: nat, t: Tid) returns (got: Got)
      requires Valid()
      modifies this`bufs, this`io, this`image
      ensures Valid() && (Abs(), got) == Get(old(Abs()), blk, t)
    {
      got := TryGetBuffer(blk, t);
      if got.Nothing? {
        var _ := SyncBuffer();
        got := TryGetBuffer(blk, t);
      }
    }

    /** `update_buffer` and the setting of VALID. */
    method UpdateBuffer(i: nat) returns (status: int)
      requires Valid() && i < |bufs|
      modifies this`bufs
      ensures Valid() && (Abs(), status) == Update(old(Abs()), i)
    {
      if bufs[i].blkno >= Blocks(image) { return -1; }
      bufs := bufs[i := bufs[i].(data := BlockAt(image, bufs[i].blkno), valid := true)];
      return 0;
    }

    /** `bdev_read_buffer`. */
    method ReadBuffer(blk: nat, t: Tid) returns (out: Outcome)
      requires Valid()
      modifies this
      ensures Valid() && (Abs(), out) == Read(old(Abs()), blk, t) && disk == old(disk)
      ensures old(Quiet()) ==> !out.Waits? && (out.Panic? <==> Stuck(old(Abs()), blk))
      ensures old(Quiet()) && out.Done? ==> Quiet() && (out.status == 0 <==>
        blk < |disk| && !(Poisoned(old(Abs())) && NeedsSync(old(Abs()), blk)))
      ensures old(Quiet()) && out.Done? && out.status == 0 ==> blk < |disk| && out.data == disk[blk]
    {
      hide Inv, Idle, Stuck, Poisoned, NeedsSync, Without, Get, SyncList;
      if Quiet() { ReadAgrees(Abs(), disk, blk, t); }
      var got := GetBuffer(blk, t);
      if got.Nothing? { return Panic; }
      if got.Busy? { return Waits; }
      var i, status := got.i, 0;
      if !bufs[i].valid {
        if bufs[i].dirty {
          var rv := SyncBuffer();
          if rv != 0 {
            ReleaseBuffer(i);
            return Done(-2, []);
          }
        }
        status := UpdateBuffer(i);
      }
      var data := bufs[i].data;
      ReleaseBuffer(i);
      return Done(status, data);
    }

    /** `bdev_write_buffer`. */
    method WriteBuffer(blk: nat, d: seq<Byte>, t: Tid) returns (out: Outcome)
      requires Valid() && |d| == 512
      modifies this
      ensures Valid() && (Abs(), out) == Write(old(Abs()), blk, d, t)
      ensures disk == if out.Done? then Put(old(disk), blk, d) else old(disk)
      ensures old(Quiet()) ==> !out.Waits? && (out.Panic? <==> Stuck(old(Abs()), blk))
      ensures old(Quiet()) && out.Done? ==> out.status == 0 && Quiet()
    {
      hide Inv, Idle, Stuck, Without, Get, SyncList, Put;
      if Quiet() { WriteAgrees(Abs(), disk, blk, d, t); }
      var got := GetBuffer(blk, t);
      if got.Nothing? { return Panic; }
      if got.Busy? { return Waits; }
      var i := got.i;
      bufs := bufs[i := bufs[i].(data := d, dirty := true)];
      QueueBuffer(i);
      ReleaseBuffer(i);
      disk := Put(disk, blk, d);
      return Done(0, []);
    }
  }
}
