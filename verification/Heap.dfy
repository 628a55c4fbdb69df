/** The best-fit kernel heap of src/kmalloc.c: three lists of block headers living in metadata
    pages taken from the frame allocator. A header is known by its address; `blk` is the memory
    holding the `base` and `size` fields of every header. A header takes 16 bytes, so a metadata
    page holds 256; the first three of the first page are the heads of the lists. */
module Heap {
  import opened Bits
  import opened Wrappers
  import opened FrameAllocator
  import opened HeapBlocks
  import opened Queues

  // -------------------------------------------------------------------- lists of headers

  ghost function Elems(l: seq<nat>): set<nat> { set h | h in l }

  lemma {:induction false} WithoutElems(l: seq<nat>, h: nat)
    requires NoDup(l)
    ensures NoDup(Without(l, h)) && Elems(Without(l, h)) == Elems(l) - {h}
  {
    WithoutMembers(l, h);
  }

  /** Linking a node that is not on the list at its head (`list_add`). */
  lemma {:induction false} PushElems(l: seq<nat>, h: nat)
    ensures Elems([h] + l) == Elems(l) + {h}
    ensures NoDup(l) && h !in Elems(l) ==> NoDup([h] + l)
  {
    assert forall g :: g in [h] + l <==> g == h || g in l;
  }

  /** The blocks described by a set of headers. */
  ghost function Image(blk: map<nat, Block>, hs: set<nat>): set<Block> {
    set h | h in hs && h in blk :: blk[h]
  }

  /** Distinct headers of `hs` describe distinct blocks. */
  ghost predicate Injective(blk: map<nat, Block>, hs: set<nat>) {
    && hs <= blk.Keys
    && forall g, h :: g in hs && h in hs && g != h ==> blk[g] != blk[h]
  }

  lemma {:induction false} ImageRemove(blk: map<nat, Block>, hs: set<nat>, h: nat)
    requires Injective(blk, hs) && h in hs
    ensures Image(blk, hs - {h}) == Image(blk, hs) - {blk[h]}
  {
    assert blk[h] in Image(blk, hs);
  }

  lemma {:induction false} ImageAdd(blk: map<nat, Block>, hs: set<nat>, h: nat)
    requires h in blk
    ensures Image(blk, hs + {h}) == Image(blk, hs) + {blk[h]}
  {
    assert h in hs + {h};
  }

  lemma {:induction false} ImageFrame(blk: map<nat, Block>, hs: set<nat>, h: nat, b: Block)
    requires h !in hs
    ensures Image(blk[h := b], hs) == Image(blk, hs)
  {
  }

  /** Addresses of the headers from number `first` on in a metadata page. */
  function PageHeaders(page: nat, first: nat): (l: seq<nat>)
    requires first <= 256
    ensures |l| == 256 - first
    ensures forall k :: 0 <= k < |l| ==> l[k] == page + 16 * (first + k)
  {
    seq(256 - first, k requires 0 <= k => page + 16 * (first + k))
  }

  /** The three lists and the header memory. */
  datatype Lists = Lists(free: seq<nat>, res: seq<nat>, avail: seq<nat>, blk: map<nat, Block>) {
    ghost function Abs(): HeapBlocks.State {
      State(Image(blk, Elems(free)), Image(blk, Elems(res)))
    }

    /** Every header is in exactly one list, once. */
    ghost predicate Partition() {
      && NoDup(free) && NoDup(res) && NoDup(avail)
      && Elems(free) !! Elems(res) && Elems(free) !! Elems(avail) && Elems(res) !! Elems(avail)
      && Elems(free) + Elems(res) + Elems(avail) == blk.Keys
    }

    ghost predicate Sound(start: nat, end: nat) {
      && Partition()
      && Injective(blk, Elems(free) + Elems(res))
      && Tiles(start, end, Abs())
    }
  }

  // ------------------------------------------------------- the list operations of the calls

  /** Exact fit: header `h` moves from `free` to the head of `res`. */
  function TakeExact(s: Lists, h: nat): Lists {
    s.(free := Without(s.free, h), res := [h] + s.res)
  }

  lemma {:induction false} TakeExactPartition(s: Lists, h: nat)
    requires s.Partition() && h in s.free
    ensures var s' := TakeExact(s, h);
      s'.Partition() && Elems(s'.free) == Elems(s.free) - {h} && Elems(s'.res) == Elems(s.res) + {h}
  {
    assert h in Elems(s.free);
    WithoutElems(s.free, h);
    PushElems(s.res, h);
  }

  lemma {:induction false} TakeExactIsCarve(start: nat, end: nat, s: Lists, h: nat)
    requires s.Sound(start, end) && h in s.free
    ensures var s', f := TakeExact(s, h), s.blk[h];
      s'.Sound(start, end) && s'.Abs() == Carve(s.Abs(), f, f.size)
  {
    var s' := TakeExact(s, h);
    var f := s.blk[h];
    assert h in Elems(s.free) && f in s.Abs().free && f in s.Abs().All() && f.size > 0;
    CarveKeepsTiling(start, end, s.Abs(), f, f.size);
    TakeExactPartition(s, h);
    assert Injective(s.blk, Elems(s.free));
    ImageRemove(s.blk, Elems(s.free), h);
    ImageAdd(s.blk, Elems(s.res), h);
    assert Elems(s'.free) + Elems(s'.res) == Elems(s.free) + Elems(s.res);
    assert s'.Abs() == Carve(s.Abs(), f, f.size);
  }

  /** Split: the first available header takes the low `n` bytes of the block of `found`. */
  function Split(s: Lists, found: nat, n: nat): Lists
    requires found in s.blk && s.avail != [] && n <= s.blk[found].size
  {
    var h, f := s.avail[0], s.blk[found];
    s.(blk := s.blk[h := Block(f.base, n)][found := Block(f.base + n, f.size - n)],
       avail := s.avail[1..], res := [h] + s.res)
  }

  /** No header but `found` describes `b` or `rest`. */
  ghost predicate Novel(blk: map<nat, Block>, hs: set<nat>, found: nat, b: Block, rest: Block) {
    hs <= blk.Keys && forall g :: g in hs && g != found ==> blk[g] != b && blk[g] != rest
  }

  lemma {:induction false} SplitImages(
      blk: map<nat, Block>, fs: set<nat>, rs: set<nat>, h: nat, found: nat, b: Block, rest: Block)
    requires Injective(blk, fs + rs) && fs !! rs && found in fs && h !in fs + rs && b != rest
    requires Novel(blk, fs + rs, found, b, rest)
    ensures var blk' := blk[h := b][found := rest];
      && Image(blk', fs) == Image(blk, fs) - {blk[found]} + {rest}
      && Image(blk', rs + {h}) == Image(blk, rs) + {b}
      && Injective(blk', fs + (rs + {h}))
  {
    var blk' := blk[h := b][found := rest];
    assert Injective(blk, fs);
    var fs0 := fs - {found};
    ImageRemove(blk, fs, found);
    assert fs0 + {found} == fs;
    ImageFrame(blk, fs0, h, b);
    ImageFrame(blk[h := b], fs0, found, rest);
    ImageAdd(blk', fs0, found);
    ImageFrame(blk, rs, h, b);
    ImageFrame(blk[h := b], rs, found, rest);
    ImageAdd(blk', rs, h);
  }

  lemma {:induction false} SplitPartition(s: Lists, found: nat, n: nat)
    requires s.Partition() && found in s.free && s.avail != [] && n <= s.blk[found].size
    ensures var s', h := Split(s, found, n), s.avail[0];
      && s'.Partition() && s'.blk.Keys == s.blk.Keys
      && Elems(s'.res) == Elems(s.res) + {h} && h !in Elems(s.free) + Elems(s.res)
      && Elems(s.free) !! Elems(s.res) && found in Elems(s.free)
  {
    var h := s.avail[0];
    assert h in Elems(s.avail) && found in Elems(s.free);
    assert Without(s.avail, h) == s.avail[1..];
    WithoutElems(s.avail, h);
    PushElems(s.res, h);
  }

  lemma {:induction false} SplitIsNovel(start: nat, end: nat, s: Lists, found: nat, n: nat)
    requires s.Sound(start, end) && found in s.free && found in s.blk && n < s.blk[found].size
    ensures var f := s.blk[found];
      Novel(s.blk, Elems(s.free) + Elems(s.res), found, Block(f.base, n), Block(f.base + n, f.size - n))
  {
    var f := s.blk[found];
    assert found in Elems(s.free) && f in s.Abs().free;
    forall g | g in Elems(s.free) + Elems(s.res) && g != found
      ensures s.blk[g] != Block(f.base, n) && s.blk[g] != Block(f.base + n, f.size - n)
    {
      assert s.blk[g] in s.Abs().All() && s.blk[g].size > 0;
      if n > 0 { CarveApart(start, end, s.Abs(), f, n, s.blk[g]); }
    }
  }

  lemma {:induction false} SplitAbs(s: Lists, found: nat, n: nat)
    requires s.Partition() && Injective(s.blk, Elems(s.free) + Elems(s.res))
    requires found in s.free && found in s.blk && s.avail != [] && n < s.blk[found].size
    requires var f := s.blk[found];
      Novel(s.blk, Elems(s.free) + Elems(s.res), found, Block(f.base, n), Block(f.base + n, f.size - n))
    ensures var s' := Split(s, found, n);
      && s'.Partition() && s'.blk.Keys == s.blk.Keys
      && Injective(s'.blk, Elems(s'.free) + Elems(s'.res))
      && s'.Abs() == Carve(s.Abs(), s.blk[found], n)
  {
    hide Lists.Partition, Image, Injective, Elems, Novel;
    var f := s.blk[found];
    SplitPartition(s, found, n);
    SplitImages(s.blk, Elems(s.free), Elems(s.res), s.avail[0], found,
                Block(f.base, n), Block(f.base + n, f.size - n));
  }

  /** Splitting is the abstract carving, for a request of 0 too; the blocks tile the heap
      afterwards exactly when the request was positive. */
  lemma {:induction false} SplitIsCarve(start: nat, end: nat, s: Lists, found: nat, n: nat)
    requires s.Sound(start, end) && found in s.free && s.avail != [] && n < s.blk[found].size
    ensures var s', f := Split(s, found, n), s.blk[found];
      && s'.Partition() && s'.Abs() == Carve(s.Abs(), f, n) && s'.blk.Keys == s.blk.Keys
      && s.avail[0] in s.blk && s.avail[0] != found
      && (s'.Sound(start, end) <==> n > 0)
  {
    assert s.avail[0] in Elems(s.avail);
    assert found in Elems(s.free) && s.blk[found] in s.Abs().free;
    SplitIsNovel(start, end, s, found, n);
    SplitAbs(s, found, n);
    CarveTilesIffPositive(start, end, s.Abs(), s.blk[found], n);
    hide Lists.Partition, Injective, Tiles, Lists.Abs;
  }

  function ToFree(s: Lists, h: nat): (r: Lists)
    ensures r.blk == s.blk
  {
    s.(res := Without(s.res, h), free := [h] + s.free)
  }

  function ToAvail(s: Lists, o: Option<nat>): (r: Lists)
    ensures r.blk == s.blk && r.res == s.res
  {
    if o.None? then s else s.(free := Without(s.free, o.value), avail := [o.value] + s.avail)
  }

  /** Freeing: header `h` goes to the head of `free` with the merged block, and the headers of
      the absorbed neighbours go back to the head of `avail`, left one first. */
  function GiveBack(s: Lists, h: nat, lp: Option<nat>, rp: Option<nat>, m: Block): Lists {
    var s1 := ToAvail(ToAvail(ToFree(s, h), lp), rp);
    s1.(blk := s.blk[h := m])
  }

  ghost function HeaderSet(o: Option<nat>): set<nat> { if o.Some? then {o.value} else {} }

  lemma {:induction false} ToAvailPartition(s: Lists, o: Option<nat>)
    requires s.Partition() && (o.Some? ==> o.value in s.free)
    ensures var s' := ToAvail(s, o);
      s'.Partition() && Elems(s'.free) == Elems(s.free) - HeaderSet(o)
  {
    if o.Some? {
      assert o.value in Elems(s.free);
      WithoutElems(s.free, o.value);
      PushElems(s.avail, o.value);
    }
  }

  lemma {:induction false} ToFreePartition(s: Lists, h: nat)
    requires s.Partition() && h in s.res
    ensures var s' := ToFree(s, h);
      s'.Partition() && Elems(s'.free) == Elems(s.free) + {h} && Elems(s'.res) == Elems(s.res) - {h}
  {
    assert h in Elems(s.res);
    WithoutElems(s.res, h);
    PushElems(s.free, h);
  }

  /** A new block for a header in use does not move it between the lists. */
  lemma {:induction false} NewBlock(s: Lists, s1: Lists, h: nat, m: Block)
    requires s.Partition() && h in s.res && s1.Partition() && s1.blk == s.blk
    ensures s1.(blk := s.blk[h := m]).Partition() && s.blk[h := m].Keys == s.blk.Keys
    ensures h !in Elems(s.free)
  {
    assert h in Elems(s.res);
  }

  lemma {:induction false} GiveBackPartition(s: Lists, h: nat, lp: Option<nat>, rp: Option<nat>, m: Block)
    requires s.Partition() && h in s.res
    requires lp.Some? ==> lp.value in s.free
    requires rp.Some? ==> rp.value in s.free && rp != lp
    ensures var s' := GiveBack(s, h, lp, rp, m);
      && s'.Partition() && s'.blk.Keys == s.blk.Keys
      && Elems(s'.free) == Elems(s.free) - HeaderSet(lp) - HeaderSet(rp) + {h}
      && Elems(s'.res) == Elems(s.res) - {h}
  {
    hide Lists.Partition, ToFree, ToAvail;
    var s0 := ToFree(s, h);
    ToFreePartition(s, h);
    assert lp.Some? ==> lp.value in s0.free && lp.value in Elems(s.free);
    ToAvailPartition(s0, lp);
    var s1 := ToAvail(s0, lp);
    assert rp.Some? ==> rp.value in Elems(s.free) && rp.value in Elems(s1.free);
    ToAvailPartition(s1, rp);
    assert h in Elems(s.res);
    NewBlock(s, ToAvail(s1, rp), h, m);
  }

  /** The block held by an optional header. */
  ghost function BlockOf(blk: map<nat, Block>, o: Option<nat>): Option<Block> {
    if o.Some? && o.value in blk then Some(blk[o.value]) else None
  }

  /** No header of `hs` describes `m`. */
  ghost predicate NewTo(blk: map<nat, Block>, hs: set<nat>, m: Block) {
    hs <= blk.Keys && forall g :: g in hs ==> blk[g] != m
  }

  lemma {:induction false} GiveBackImages(
      blk: map<nat, Block>, fs: set<nat>, rs: set<nat>, h: nat, lp: Option<nat>, rp: Option<nat>, m: Block)
    requires Injective(blk, fs + rs) && fs !! rs && h in rs
    requires HeaderSet(lp) <= fs && HeaderSet(rp) <= fs
    requires NewTo(blk, fs + rs - {h} - HeaderSet(lp) - HeaderSet(rp), m)
    ensures var blk', fs' := blk[h := m], fs - HeaderSet(lp) - HeaderSet(rp) + {h};
      && Image(blk', fs') == Image(blk, fs) - AsSet(BlockOf(blk, lp)) - AsSet(BlockOf(blk, rp)) + {m}
      && Image(blk', rs - {h}) == Image(blk, rs) - {blk[h]}
      && Injective(blk', fs' + (rs - {h}))
  {
    var fs1 := fs - HeaderSet(lp);
    var fs2 := fs1 - HeaderSet(rp);
    assert Injective(blk, fs) && Injective(blk, rs) && Injective(blk, fs1);
    if lp.Some? { assert lp.value in HeaderSet(lp); ImageRemove(blk, fs, lp.value); }
    if rp.Some? {
      assert rp.value in HeaderSet(rp);
      if rp.value in fs1 { ImageRemove(blk, fs1, rp.value); }
    }
    ImageFrame(blk, fs2, h, m);
    ImageAdd(blk[h := m], fs2, h);
    ImageRemove(blk, rs, h);
    ImageFrame(blk, rs - {h}, h, m);
  }

  /** The optional headers are those of the free neighbours of the block of `h`. */
  ghost predicate Beside(s: Lists, h: nat, lp: Option<nat>, rp: Option<nat>) {
    && h in s.blk && (lp.Some? ==> lp.value in s.free) && (rp.Some? ==> rp.value in s.free)
    && LeftNeighbour(s.Abs().free, s.blk[h], BlockOf(s.blk, lp))
    && RightNeighbour(s.Abs().free, s.blk[h], BlockOf(s.blk, rp))
  }

  lemma {:induction false} MergedIsNew(start: nat, end: nat, s: Lists, h: nat, lp: Option<nat>, rp: Option<nat>)
    requires s.Sound(start, end) && h in s.res && Beside(s, h, lp, rp)
    ensures var m := Merged(s.blk[h], BlockOf(s.blk, lp), BlockOf(s.blk, rp));
      NewTo(s.blk, Elems(s.free) + Elems(s.res) - {h} - HeaderSet(lp) - HeaderSet(rp), m)
  {
    var b, l, r := s.blk[h], BlockOf(s.blk, lp), BlockOf(s.blk, rp);
    var m := Merged(b, l, r);
    assert h in Elems(s.res) && b in s.Abs().live;
    forall g | g in Elems(s.free) + Elems(s.res) - {h} - HeaderSet(lp) - HeaderSet(rp) ensures s.blk[g] != m {
      assert s.blk[g] in s.Abs().All();
      ReleaseApart(start, end, s.Abs(), b, l, r, s.blk[g]);
    }
  }

  lemma {:induction false} NeighboursDiffer(start: nat, end: nat, s: Lists, h: nat, lp: Option<nat>, rp: Option<nat>)
    requires s.Sound(start, end) && h in s.res && Beside(s, h, lp, rp)
    ensures HeaderSet(lp) <= Elems(s.free) && HeaderSet(rp) <= Elems(s.free)
    ensures Elems(s.free) !! Elems(s.res) && h in Elems(s.res)
    ensures rp.Some? ==> rp != lp
    ensures s.blk[h] in s.Abs().live
  {
    assert h in Elems(s.res) && s.blk[h] in s.Abs().live && s.blk[h] in s.Abs().All();
  }

  lemma {:induction false} GiveBackAbs(s: Lists, h: nat, lp: Option<nat>, rp: Option<nat>)
    requires s.Partition() && Injective(s.blk, Elems(s.free) + Elems(s.res)) && h in s.res && Beside(s, h, lp, rp)
    requires HeaderSet(lp) <= Elems(s.free) && HeaderSet(rp) <= Elems(s.free) && (rp.Some? ==> rp != lp)
    requires Elems(s.free) !! Elems(s.res) && h in Elems(s.res)
    requires var m := Merged(s.blk[h], BlockOf(s.blk, lp), BlockOf(s.blk, rp));
      NewTo(s.blk, Elems(s.free) + Elems(s.res) - {h} - HeaderSet(lp) - HeaderSet(rp), m)
    ensures var b, l, r := s.blk[h], BlockOf(s.blk, lp), BlockOf(s.blk, rp);
      var s' := GiveBack(s, h, lp, rp, Merged(b, l, r));
      && s'.Partition() && Injective(s'.blk, Elems(s'.free) + Elems(s'.res))
      && s'.Abs() == Release(s.Abs(), b, l, r) && s'.blk.Keys == s.blk.Keys
  {
    hide Lists.Partition, Injective, Image, Elems, NewTo, LeftNeighbour, RightNeighbour, HeaderSet;
    var m := Merged(s.blk[h], BlockOf(s.blk, lp), BlockOf(s.blk, rp));
    GiveBackPartition(s, h, lp, rp, m);
    GiveBackImages(s.blk, Elems(s.free), Elems(s.res), h, lp, rp, m);
  }

  lemma {:induction false} GiveBackIsRelease(start: nat, end: nat, s: Lists, h: nat, lp: Option<nat>, rp: Option<nat>)
    requires s.Sound(start, end) && h in s.res && Beside(s, h, lp, rp)
    ensures var b, l, r := s.blk[h], BlockOf(s.blk, lp), BlockOf(s.blk, rp);
      var s' := GiveBack(s, h, lp, rp, Merged(b, l, r));
      && s'.Sound(start, end) && s'.Abs() == Release(s.Abs(), b, l, r) && s'.blk.Keys == s.blk.Keys
      && KfreeStep(s.Abs(), b.base, s'.Abs())
  {
    NeighboursDiffer(start, end, s, h, lp, rp);
    MergedIsNew(start, end, s, h, lp, rp);
    GiveBackAbs(s, h, lp, rp);
    ReleaseKeepsTiling(start, end, s.Abs(), s.blk[h], BlockOf(s.blk, lp), BlockOf(s.blk, rp));
    hide Lists.Partition, Injective, Tiles, Lists.Abs, Release, GiveBack, NewTo, LeftNeighbour, RightNeighbour;
  }

  // ---------------------------------------------------------------- reading sound lists

  /** The free blocks are the blocks of the headers on `free`, none empty or too large. */
  lemma {:induction false} FreeBlocks(start: nat, end: nat, s: Lists)
    requires s.Sound(start, end)
    ensures forall h :: h in s.free ==>
      h in s.blk && s.blk[h] in s.Abs().free && 0 < s.blk[h].size <= end - start
    ensures forall f :: f in s.Abs().free ==> exists h :: h in s.free && s.blk[h] == f
  {
    forall h | h in s.free ensures h in s.blk && s.blk[h] in s.Abs().free && 0 < s.blk[h].size <= end - start {
      assert h in Elems(s.free) && h in s.blk.Keys;
      assert s.blk[h] in s.Abs().All();
    }
  }

  lemma {:induction false} FreeInRange(start: nat, end: nat, s: Lists)
    requires s.Sound(start, end)
    ensures forall h :: h in s.free ==> h in s.blk && 0 < s.blk[h].size <= end - start
  {
    FreeBlocks(start, end, s);
  }

  /** Sizes of free blocks are sizes of headers on `free`. */
  lemma {:induction false} FreeSizes(start: nat, end: nat, s: Lists, n: nat)
    requires s.Sound(start, end) && forall h :: h in s.free ==> h in s.blk
    ensures (forall f :: f in s.Abs().free ==> f.size < n) <==> (forall h :: h in s.free ==> s.blk[h].size < n)
    ensures (forall f :: f in s.Abs().free ==> f.size != n) <==> (forall h :: h in s.free ==> s.blk[h].size != n)
  {
    FreeBlocks(start, end, s);
    hide Lists.Sound, Lists.Abs;
  }

  /** The reserved blocks are the blocks of the headers on `res`. */
  lemma {:induction false} ReservedBlocks(start: nat, end: nat, s: Lists)
    requires s.Sound(start, end)
    ensures forall h :: h in s.res ==> h in s.blk && s.blk[h] in s.Abs().live && 0 < s.blk[h].size
    ensures forall b :: b in s.Abs().live ==> exists h :: h in s.res && s.blk[h] == b
  {
    forall h | h in s.res ensures h in s.blk && s.blk[h] in s.Abs().live && 0 < s.blk[h].size {
      assert h in Elems(s.res) && h in s.blk.Keys;
      assert s.blk[h] in s.Abs().All();
    }
  }

  /** What the merging pass relies on: the released block touches free blocks at most. */
  lemma {:induction false} ReadyToCoalesce(start: nat, end: nat, s: Lists, h: nat)
    requires s.Sound(start, end) && h in s.res
    ensures h in s.blk && s.blk[h].size > 0
    ensures forall k :: 0 <= k < |s.free| ==>
      s.free[k] in s.blk && s.blk[s.free[k]].size > 0 && s.free[k] != h && Apart(s.blk[s.free[k]], s.blk[h])
    ensures forall j, k :: 0 <= j < |s.free| && 0 <= k < |s.free| ==>
      s.blk[s.free[j]].End() != s.blk[s.free[k]].base
  {
    FreeBlocks(start, end, s);
    ReservedBlocks(start, end, s);
    var t := s.Abs();
    forall k | 0 <= k < |s.free|
      ensures s.free[k] in s.blk && s.blk[s.free[k]] in t.free && s.free[k] != h && Apart(s.blk[s.free[k]], s.blk[h])
    {
      assert s.free[k] in s.free && s.free[k] in Elems(s.free) && h in Elems(s.res);
      assert s.blk[s.free[k]] in t.All() && s.blk[h] in t.All();
    }
  }

  // ---------------------------------------------------------------------- metadata pages

  lemma {:induction false} HeadersInPage(page: nat, first: nat)
    requires first <= 256
    ensures NoDup(PageHeaders(page, first))
    ensures forall h :: h in PageHeaders(page, first) ==> page <= h < page + 4096
  {
  }

  lemma {:induction false} AppendElems(a: seq<nat>, b: seq<nat>)
    requires NoDup(a) && NoDup(b) && Elems(a) !! Elems(b)
    ensures NoDup(a + b) && Elems(a + b) == Elems(a) + Elems(b)
  {
    forall i, j | 0 <= i < |a| && 0 <= j < |b| ensures a[i] != b[j] {
      assert a[i] in Elems(a) && b[j] in Elems(b);
    }
  }

  /** The contents of a zeroed metadata page. */
  function ZeroHeaders(l: seq<nat>): map<nat, Block> { map h | h in l :: Block(0, 0) }

  lemma {:induction false} AddPage(start: nat, end: nat, s: Lists, page: nat)
    requires s.Sound(start, end)
    requires forall h :: h in s.blk.Keys ==> h < page || page + 4096 <= h
    ensures var l := PageHeaders(page, 0);
      var s' := s.(avail := s.avail + l, blk := s.blk + ZeroHeaders(l));
      && s'.Sound(start, end) && s'.Abs() == s.Abs()
      && s'.blk.Keys == s.blk.Keys + Elems(l)
      && forall h :: h in s.blk ==> h in s'.blk && s'.blk[h] == s.blk[h]
  {
    var l := PageHeaders(page, 0);
    var s' := s.(avail := s.avail + l, blk := s.blk + ZeroHeaders(l));
    HeadersInPage(page, 0);
    assert Elems(s.avail) <= s.blk.Keys;
    AppendElems(s.avail, l);
    assert Elems(l) == ZeroHeaders(l).Keys;
    assert Image(s'.blk, Elems(s.free)) == Image(s.blk, Elems(s.free));
    assert Image(s'.blk, Elems(s.res)) == Image(s.blk, Elems(s.res));
  }

  /** Header 3 of the first page describes the whole heap, headers 4 to 255 are available. */
  function NewLists(start: nat, end: nat, page: nat): Lists
    requires start <= end
  {
    var h, l := page + 48, PageHeaders(page, 4);
    Lists([h], [], l, ZeroHeaders(l)[h := Block(start, end - start)])
  }

  lemma {:induction false} NewListsSound(start: nat, end: nat, page: nat)
    requires start < end
    ensures var s := NewLists(start, end, page);
      s.Sound(start, end) && s.Abs() == Init(start, end)
      && forall h :: h in s.blk.Keys ==> page <= h < page + 4096
  {
    var s := NewLists(start, end, page);
    HeadersInPage(page, 4);
    assert page + 48 in Elems(s.free);
    assert s.Abs() == Init(start, end);
    RunKeepsTiling(start, end, [Init(start, end)], [], 0);
  }

  // ---------------------------------------------------------------------- the list loops

  /** No header before index `k` has a block of the same size. */
  ghost predicate FirstOfSize(free: seq<nat>, blk: map<nat, Block>, k: nat) {
    && k < |free| && free[k] in blk
    && forall j :: 0 <= j < k ==> free[j] in blk && blk[free[j]].size != blk[free[k]].size
  }

  /** The search of `__kmalloc`: an exact fit stops it, otherwise the smallest larger block. */
  method FindFit(free: seq<nat>, blk: map<nat, Block>, n: Word)
    returns (exact: Option<nat>, found: Option<nat>, ghost at: nat)
    requires forall k :: 0 <= k < |free| ==> free[k] in blk && 0 < blk[free[k]].size < 0xFFFF_FFFF
    ensures exact.Some? ==> at < |free| && exact.value == free[at] && blk[exact.value].size == n
    ensures exact.None? && found.Some? ==> at < |free| && found.value == free[at]
    ensures exact.Some? || found.Some? ==> FirstOfSize(free, blk, at)
    ensures exact.None? ==> forall h :: h in free ==> blk[h].size != n
    ensures exact.None? && found.Some? ==>
      blk[found.value].size > n &&
      forall h :: h in free && blk[h].size >= n ==> blk[found.value].size <= blk[h].size
    ensures exact.None? && found.None? ==> forall h :: h in free ==> blk[h].size < n
  {
    var delta: int := 0xFFFF_FFFF;
    found, at := None, 0;
    for i := 0 to |free|
      invariant forall k :: 0 <= k < i ==> blk[free[k]].size != n
      invariant found.Some? ==> at < i && found.value == free[at] && delta == blk[found.value].size - n > 0
      invariant found.Some? ==> FirstOfSize(free, blk, at)
      invariant forall k :: 0 <= k < i && blk[free[k]].size > n ==>
        found.Some? && blk[found.value].size <= blk[free[k]].size
      invariant found.None? ==> delta == 0xFFFF_FFFF
    {
      var hbp := free[i];
      if blk[hbp].size > n {
        if blk[hbp].size - n < delta {
          delta := blk[hbp].size - n;
          found, at := Some(hbp), i;
        }
      } else if blk[hbp].size == n {
        return Some(hbp), found, i;
      }
    }
    return None, found, at;
  }

  /** The search of `__kfree` for the reserved block starting at `p`. */
  method FindReserved(res: seq<nat>, blk: map<nat, Block>, p: nat) returns (found: Option<nat>)
    requires forall k :: 0 <= k < |res| ==> res[k] in blk
    ensures found.Some? ==> found.value in res && blk[found.value].base == p
    ensures found.None? ==> forall h :: h in res ==> blk[h].base != p
  {
    for i := 0 to |res|
      invariant forall k :: 0 <= k < i ==> blk[res[k]].base != p
    {
      if blk[res[i]].base == p {
        return Some(res[i]);
      }
    }
    return None;
  }

  /** The merging pass of `__kfree` over the free list, whose head is the released header `h`:
      in one pass it finds both neighbours of the released block and absorbs them. */
  method Coalesce(free: seq<nat>, blk0: map<nat, Block>, h: nat)
    returns (blk: map<nat, Block>, lp: Option<nat>, rp: Option<nat>)
    requires |free| > 0 && free[0] == h
    requires forall k :: 0 <= k < |free| ==> free[k] in blk0 && blk0[free[k]].size > 0
    requires forall k :: 1 <= k < |free| ==> free[k] != h && Apart(blk0[free[k]], blk0[h])
    requires forall j, k :: 1 <= j < |free| && 1 <= k < |free| ==> blk0[free[j]].End() != blk0[free[k]].base
    ensures lp.Some? ==> lp.value in free[1..] && blk0[lp.value].End() == blk0[h].base
    ensures rp.Some? ==> rp.value in free[1..] && blk0[rp.value].base == blk0[h].End()
    ensures lp.None? ==> forall k :: 1 <= k < |free| ==> blk0[free[k]].End() != blk0[h].base
    ensures rp.None? ==> forall k :: 1 <= k < |free| ==> blk0[free[k]].base != blk0[h].End()
    ensures blk == blk0[h := Merged(blk0[h], BlockOf(blk0, lp), BlockOf(blk0, rp))]
  {
    ghost var b := blk0[h];
    var found := blk0[h];   // the fields of the released header, updated in place
    lp, rp := None, None;
    var i := 0;
    while i < |free|
      invariant 0 <= i <= |free|
      invariant lp.Some? ==> lp.value in free[1..] && blk0[lp.value].End() == b.base
      invariant rp.Some? ==> rp.value in free[1..] && blk0[rp.value].base == b.End()
      invariant lp.None? ==> forall k :: 1 <= k < i ==> blk0[free[k]].End() != b.base
      invariant rp.None? ==> forall k :: 1 <= k < i ==> blk0[free[k]].base != b.End()
      invariant found == Merged(b, BlockOf(blk0, lp), BlockOf(blk0, rp))
    {
      var hbp := if free[i] == h then found else blk0[free[i]];
      assert i > 0 ==> free[i] == free[1..][i - 1];
      if hbp.base + hbp.size == found.base {
        found := Block(hbp.base, found.size + hbp.size);
        lp := Some(free[i]);
      } else if hbp.base == found.base + found.size {
        found := Block(found.base, found.size + hbp.size);
        rp := Some(free[i]);
      }
      if lp.Some? && rp.Some? {
        break;
      }
      i := i + 1;
    }
    blk := blk0[h := found];
  }

  /** The headers found by the merging pass are the neighbours of the released block. */
  lemma {:induction false} NeighboursFound(s: Lists, h: nat, lp: Option<nat>, rp: Option<nat>)
    requires h in s.blk && forall g :: g in s.free ==> g in s.blk
    requires lp.Some? ==> lp.value in s.free && s.blk[lp.value].End() == s.blk[h].base
    requires rp.Some? ==> rp.value in s.free && s.blk[rp.value].base == s.blk[h].End()
    requires lp.None? ==> forall k :: 0 <= k < |s.free| ==> s.blk[s.free[k]].End() != s.blk[h].base
    requires rp.None? ==> forall k :: 0 <= k < |s.free| ==> s.blk[s.free[k]].base != s.blk[h].End()
    ensures Beside(s, h, lp, rp)
  {
    if lp.Some? { assert lp.value in Elems(s.free); }
    if rp.Some? { assert rp.value in Elems(s.free); }
  }

  function Dropped(l: seq<nat>, o: Option<nat>): seq<nat> { if o.Some? then Without(l, o.value) else l }
  function Listed(o: Option<nat>): seq<nat> { if o.Some? then [o.value] else [] }

  /** How `kfree` treats its lists: the released header heads the free list, the absorbed ones head
      the available list, the right one first. */
  ghost predicate FreedInOrder(s: Lists, p: nat, s': Lists) {
    exists h, lp, rp ::
      && h in s.res && h in s.blk && s.blk[h].base == p && Beside(s, h, lp, rp)
      && s'.res == Without(s.res, h)
      && s'.free == Dropped(Dropped([h] + s.free, lp), rp)
      && s'.avail == Listed(rp) + (Listed(lp) + s.avail)
  }

  lemma {:induction false} GiveBackInOrder(s: Lists, h: nat, lp: Option<nat>, rp: Option<nat>, m: Block)
    requires h in s.res && h in s.blk && Beside(s, h, lp, rp)
    ensures FreedInOrder(s, s.blk[h].base, GiveBack(s, h, lp, rp, m))
  {
    hide Beside, Without;
    var s' := GiveBack(s, h, lp, rp, m);
    assert s'.avail == Listed(rp) + (Listed(lp) + s.avail);
  }

  /** Releasing header `h`: it moves to the free list, absorbs the free neighbours of its block
      and hands their headers back. */
  method ReleaseLists(s: Lists, h: nat, ghost start: nat, ghost end: nat) returns (s': Lists)
    requires s.Sound(start, end) && h in s.res
    ensures s'.Sound(start, end) && s'.blk.Keys == s.blk.Keys
    ensures h in s.blk && KfreeStep(s.Abs(), s.blk[h].base, s'.Abs())
    ensures FreedInOrder(s, s.blk[h].base, s')
  {
    hide FreedInOrder, Beside;
    hide Lists.Sound, Lists.Abs, Without, KfreeStep, LeftNeighbour, RightNeighbour;
    ReadyToCoalesce(start, end, s, h);
    var res := Without(s.res, h);
    var free, avail := [h] + s.free, s.avail;
    var blk, lp, rp := Coalesce(free, s.blk, h);
    assert free[1..] == s.free;
    NeighboursFound(s, h, lp, rp);
    GiveBackIsRelease(start, end, s, h, lp, rp);
    GiveBackInOrder(s, h, lp, rp, Merged(s.blk[h], BlockOf(s.blk, lp), BlockOf(s.blk, rp)));
    if lp.Some? {
      free, avail := Without(free, lp.value), [lp.value] + avail;
    }
    if rp.Some? {
      free, avail := Without(free, rp.value), [rp.value] + avail;
    }
    s' := Lists(free, res, avail, blk);
    assert s' == GiveBack(s, h, lp, rp, Merged(s.blk[h], BlockOf(s.blk, lp), BlockOf(s.blk, rp)));
  }

  /** The headers are the same, or there were none available and a page of them was added. */
  ghost predicate HeadersKept(s: Lists, s': Lists) {
    || s'.blk.Keys == s.blk.Keys
    || (s.avail == [] && exists page :: s'.blk.Keys == s.blk.Keys + Elems(PageHeaders(page, 0)))
  }

  /** What `kmalloc` of `n` bytes makes of the lists `s` with `nfree` frames left: `r` is the low end
      of a smallest sufficient free block, carved off; it is NULL, and no block changes, exactly
      when no free block suffices, or when a split is needed and neither a header nor a frame for
      new headers is left. Every header stays on exactly one list. */
  ghost predicate Malloced(s: Lists, nfree: nat, n: nat, r: Option<nat>, s': Lists) {
    && (r.Some? ==> MallocStep(s.Abs(), n, r.value, s'.Abs()))
    && (r.Some? ==> s'.Abs().live == s.Abs().live + {Block(r.value, n)})
    && (r.None? ==> s'.Abs() == s.Abs())
    && (r.None? <==>
          || (forall f :: f in s.Abs().free ==> f.size < n)
          || (s.avail == [] && nfree == 0 && forall f :: f in s.Abs().free ==> f.size != n))
    && s'.Partition() && HeadersKept(s, s')
  }

  ghost predicate NoneFits(s: Lists, n: nat) { forall h :: h in s.free ==> h in s.blk && s.blk[h].size < n }

  lemma {:induction false} MallocedNone(start: nat, end: nat, s: Lists, nfree: nat, n: nat)
    requires s.Sound(start, end) && NoneFits(s, n)
    ensures Malloced(s, nfree, n, None, s)
  {
    FreeSizes(start, end, s, n);
    hide Lists.Abs;
  }

  /** The block of `h` is a smallest sufficient one, and none fits exactly unless it does. */
  ghost predicate Smallest(s: Lists, h: nat, n: nat) {
    && h in s.blk && n <= s.blk[h].size
    && forall g :: g in s.free && g in s.blk && s.blk[g].size >= n ==> s.blk[h].size <= s.blk[g].size
  }

  lemma {:induction false} SmallestIsBestFit(start: nat, end: nat, s: Lists, n: nat, h: nat)
    requires s.Sound(start, end) && h in s.free && Smallest(s, h, n)
    ensures BestFit(s.Abs().free, n, s.blk[h])
  {
    FreeBlocks(start, end, s);
  }

  lemma {:induction false} SoundPartition(start: nat, end: nat, s: Lists)
    requires s.Sound(start, end)
    ensures s.Partition()
  {
  }

  lemma {:induction false} MallocedExact(start: nat, end: nat, s: Lists, nfree: nat, n: nat, h: nat)
    requires s.Sound(start, end) && h in s.free && h in s.blk && s.blk[h].size == n
    ensures Malloced(s, nfree, n, Some(s.blk[h].base), TakeExact(s, h))
  {
    SmallestIsBestFit(start, end, s, n, h);
    TakeExactIsCarve(start, end, s, h);
    SoundPartition(start, end, TakeExact(s, h));
    hide Lists.Abs, Lists.Sound, Lists.Partition;
  }

  lemma {:induction false} MallocedSplit(start: nat, end: nat, s: Lists, nfree: nat, n: nat, s1: Lists, found: nat)
    requires s.Sound(start, end) && s1.Sound(start, end)
    requires s1.Abs() == s.Abs() && s1.free == s.free && HeadersKept(s, s1)
    requires found in s.free && found in s.blk && found in s1.blk && s1.blk[found] == s.blk[found]
    requires Smallest(s, found, n) && n < s.blk[found].size && s1.avail != [] && (s.avail == [] ==> nfree > 0)
    ensures Malloced(s, nfree, n, Some(s.blk[found].base), Split(s1, found, n))
  {
    SmallestIsBestFit(start, end, s, n, found);
    SplitIsCarve(start, end, s1, found, n);
    hide Lists.Abs, Lists.Sound, Lists.Partition, Split, PageHeaders;
  }

  lemma {:induction false} MallocedNoHeader(start: nat, end: nat, s: Lists, n: nat, found: nat, s1: Lists)
    requires s.Sound(start, end) && found in s.free && found in s.blk && Smallest(s, found, n) && n < s.blk[found].size
    requires s.avail == [] && s1.Abs() == s.Abs() && s1.Partition() && s1.blk == s.blk
    ensures Malloced(s, 0, n, None, s1)
  {
    SmallestIsBestFit(start, end, s, n, found);
    hide Lists.Abs, Lists.Sound, Lists.Partition;
  }

  /** How `kmalloc` treats its lists: of the smallest sufficient blocks the first in the list is
      taken. For an exact fit its header moves to the head of the reserved list; otherwise the first
      available header does, and the free list stays. */
  ghost predicate TakenInOrder(s: Lists, n: nat, p: nat, s': Lists) {
    exists k: nat ::
      && FirstOfSize(s.free, s.blk, k) && Smallest(s, s.free[k], n) && s.blk[s.free[k]].base == p
      && if s.blk[s.free[k]].size == n
         then s'.free == Without(s.free, s.free[k]) && s'.res == [s.free[k]] + s.res && s'.avail == s.avail
         else
           && s'.free == s.free && |s'.res| > 0 && s'.res[1..] == s.res
           && (s.avail != [] ==> [s'.res[0]] + s'.avail == s.avail)
  }

  lemma {:induction false} ExactInOrder(s: Lists, n: nat, k: nat)
    requires FirstOfSize(s.free, s.blk, k) && s.blk[s.free[k]].size == n
    ensures TakenInOrder(s, n, s.blk[s.free[k]].base, TakeExact(s, s.free[k]))
  {
    hide Without;
    assert Smallest(s, s.free[k], n);
  }

  lemma {:induction false} SplitInOrder(s: Lists, n: nat, k: nat, s1: Lists)
    requires FirstOfSize(s.free, s.blk, k) && Smallest(s, s.free[k], n) && n < s.blk[s.free[k]].size
    requires s1.free == s.free && s1.res == s.res && s1.avail != [] && (s.avail != [] ==> s1.avail == s.avail)
    requires s.free[k] in s1.blk && s1.blk[s.free[k]] == s.blk[s.free[k]]
    ensures TakenInOrder(s, n, s.blk[s.free[k]].base, Split(s1, s.free[k], n))
  {
    hide Smallest;
    var s' := Split(s1, s.free[k], n);
    assert s'.res[1..] == s.res && [s'.res[0]] + s'.avail == s1.avail;
  }

  /** A page none of whose bytes is owned lies beside a range that is. */
  lemma {:induction false} RangesApart(s: FrameColors.State, frameBase: nat, start: nat, limit: nat, page: nat)
    requires start < limit && forall a :: start <= a < limit ==> OwnedIn(s, frameBase, a)
    requires forall a :: page <= a < page + 4096 ==> !OwnedIn(s, frameBase, a)
    ensures page + 4096 <= start || limit <= page
  {
    var x: int := if page < start then start else page;
    assert start <= x < limit && page <= x < page + 4096 ==> OwnedIn(s, frameBase, x);
  }

  /** The heap descriptor. */
  class HeapDesc {
    const mm: FrameTable
    var start: nat
    var end: nat
    var free: seq<nat>
    var res: seq<nat>
    var avail: seq<nat>
    var blk: map<nat, Block>
    ghost var limit: nat   // end of the frames holding [start, end)

    constructor (mm: FrameTable)
      ensures this.mm == mm
    {
      this.mm := mm;
      start, end := 0, 0;
      free, res, avail, blk := [], [], [], map[];
      limit := 0;
    }

    function All(): Lists
      reads this
    {
      Lists(free, res, avail, blk)
    }

    /** Free and reserved blocks of this heap. */
    ghost function Abs(): HeapBlocks.State
      reads this
    {
      All().Abs()
    }

    /** Headers lie in frames owned by the heap, outside the heap area itself. */
    ghost predicate HeadersOwned()
      reads this, mm
    {
      forall h :: h in blk.Keys ==> OwnedIn(mm.abs, mm.frameBase, h) && !(start <= h < limit)
    }

    ghost predicate Valid()
      reads this, mm, mm.meta
    {
      && mm.Valid()
      && 0 < start < end <= limit && end < WORD_SIZE
      && (forall a :: start <= a < limit ==> OwnedIn(mm.abs, mm.frameBase, a))
      && HeadersOwned()
      && All().Sound(start, end)
    }

    /** The frames for the heap itself. */
    method TakeArea(size: Word) returns (ok: bool)
      requires mm.Sound()
      modifies this`start, this`end, this`limit, mm, mm.meta
      ensures mm.Sound() && mm.meta == old(mm.meta) && mm.metaBase == old(mm.metaBase)
      ensures ok <==>
        mm.metaBase != 0 && FrameColors.FirstFit(old(mm.abs.colors), PageContain(size)).Some?
      ensures ok ==>
        && 0 < start < start + size <= limit <= WORD_SIZE
        && end == (if start + size < WORD_SIZE then start + size else 0)
        && mm.nfree == old(mm.nfree) - PageContain(size)
      ensures ok ==> forall a :: start <= a < limit ==> OwnedIn(mm.abs, mm.frameBase, a)
    {
      assert mm.Layout();
      hide FrameTable.Sound, OwnedIn, FrameColors.FirstFit;
      var pages := PageContain(size);
      var p := mm.Alloc(pages);
      if p.None? {
        return false;
      }
      assert 0 < size <= 4096 * pages;
      start, end, limit := p.value, Add(p.value, size), p.value + 4096 * pages;
      return true;
    }

    /** Three sentinels, one free block for the whole heap, the other headers available. */
    method BuildLists(metap: nat, ghost size: nat)
      requires mm.Valid() && 0 < start < start + size <= limit <= WORD_SIZE
      requires end == if start + size < WORD_SIZE then start + size else 0
      requires forall a :: start <= a < limit ==> OwnedIn(mm.abs, mm.frameBase, a)
      requires forall a :: metap <= a < metap + 4096 ==> OwnedIn(mm.abs, mm.frameBase, a)
      requires metap + 4096 <= start || limit <= metap
      modifies this`free, this`res, this`avail, this`blk
      ensures Valid() <==> start + size < WORD_SIZE
      ensures Abs() == HeapBlocks.Init(start, start + size)
      ensures |free + res + avail| == 253
    {
      hide FrameTable.Sound, OwnedIn, Lists.Sound, Lists.Abs;
      var first := metap + 48;
      free := [first];
      res := [];
      avail := PageHeaders(metap, 4);
      var bytes := if start <= end then end - start else end - start + WORD_SIZE;
      blk := ZeroHeaders(avail)[first := Block(start, bytes)];
      assert All() == NewLists(start, start + size, metap);
      NewListsSound(start, start + size, metap);
      assert forall h :: h in blk.Keys ==> metap <= h < metap + 4096;
      assert All().Sound(start, start + size);
    }

    /** `init_heap` with `HEAP_FB`: status 1 when the frames cannot be had. The heap is usable, that
        is its end address is not 0, exactly when it ends below 2^32. */
    method Init(size: Word) returns (status: int)
      requires mm.Sound()
      modifies this, mm, mm.meta
      ensures mm.Sound() && mm.meta == old(mm.meta)
      ensures status == 0 || status == 1
      ensures status == 0 <==>
        && mm.metaBase != 0 && FrameColors.FirstFit(old(mm.abs.colors), PageContain(size)).Some?
        && old(mm.nfree) > PageContain(size)
      ensures status == 0 ==> start < WORD_SIZE && end == Add(start, size)
      ensures status == 0 ==> (Valid() <==> start + size < WORD_SIZE)
      ensures status == 0 ==> Abs() == HeapBlocks.Init(start, start + size) && |free + res + avail| == 253
    {
      hide FrameTable.Sound, OwnedIn, FrameColors.FirstFit, PageContain;
      var ok := TakeArea(size);
      if !ok {
        return 1;
      }
      ghost var taken := mm.abs;
      var metap := mm.Alloc(1);
      if metap.None? {
        return 1;
      }
      RangesApart(taken, mm.frameBase, start, limit, metap.value);
      assert forall a :: start <= a < limit ==> OwnedIn(mm.abs, mm.frameBase, a);
      BuildLists(metap.value, size);
      return 0;
    }

    method AddMetaPage(metap: nat)
      requires Valid() && avail == []
      requires forall h :: h in blk.Keys ==> h < metap || metap + 4096 <= h
      requires forall a :: metap <= a < metap + 4096 ==> OwnedIn(mm.abs, mm.frameBase, a)
      requires metap + 4096 <= start || limit <= metap
      modifies this`avail, this`blk
      ensures Valid() && Abs() == old(Abs())
      ensures avail == PageHeaders(metap, 0) && blk.Keys == old(blk.Keys) + Elems(PageHeaders(metap, 0))
      ensures forall h :: h in old(blk) ==> h in blk && blk[h] == old(blk)[h]
    {
      hide FrameTable.Sound, OwnedIn, Lists.Sound, Lists.Abs, PageHeaders, ZeroHeaders;
      HeadersInPage(metap, 0);
      AddPage(start, end, All(), metap);
      var l := PageHeaders(metap, 0);
      blk := blk + ZeroHeaders(l);
      avail := avail + l;
      assert avail == l;
    }

    method GrowHeaders() returns (ok: bool)
      requires Valid() && avail == []
      modifies this`avail, this`blk, mm, mm.meta
      ensures Valid() && mm.meta == old(mm.meta) && Abs() == old(Abs())
      ensures !ok <==> old(mm.nfree) == 0
      ensures !ok ==> avail == [] && blk == old(blk)
      ensures ok ==>
        exists page :: blk.Keys == old(blk.Keys) + Elems(PageHeaders(page, 0)) && avail == PageHeaders(page, 0)
      ensures forall h :: h in old(blk) ==> h in blk && blk[h] == old(blk)[h]
    {
      hide FrameTable.Sound, OwnedIn, Lists.Sound, Lists.Abs;
      ghost var before := mm.abs;
      assert HeadersOwned();
      var metap := mm.Alloc(1);
      if metap.None? {
        assert HeadersOwned();
        return false;
      }
      RangesApart(before, mm.frameBase, start, limit, metap.value);
      forall h | h in blk.Keys ensures h < metap.value || metap.value + 4096 <= h {
        assert OwnedIn(before, mm.frameBase, h);
      }
      assert HeadersOwned();
      AddMetaPage(metap.value);
      return true;
    }

    /** A header for a new block: when none is available a metadata page is added. */
    method EnsureHeader() returns (ok: bool)
      requires Valid()
      modifies this`avail, this`blk, mm, mm.meta
      ensures Valid() && mm.Valid() && mm.meta == old(mm.meta)
      ensures Abs() == old(Abs()) && All().Partition() && HeadersKept(old(All()), All())
      ensures ok <==> avail != []
      ensures old(avail) != [] ==> avail == old(avail)
      ensures !ok <==> old(avail) == [] && old(mm.nfree) == 0
      ensures !ok ==> blk == old(blk)
      ensures forall h :: h in free ==> h in old(blk) && h in blk && blk[h] == old(blk)[h]
    {
      hide FrameTable.Sound, OwnedIn, Lists.Sound, Lists.Abs, Lists.Partition, PageHeaders;
      FreeInRange(start, end, All());
      SoundPartition(start, end, All());
      if avail != [] {
        return true;
      }
      ok := GrowHeaders();
      SoundPartition(start, end, All());
    }

    method Search(n: Word) returns (exact: Option<nat>, found: Option<nat>, ghost at: nat)
      requires Valid()
      ensures exact.Some? ==> at < |free| && exact.value == free[at]
      ensures exact.None? && found.Some? ==> at < |free| && found.value == free[at]
      ensures exact.Some? || found.Some? ==> FirstOfSize(free, blk, at)
      ensures exact.Some? ==> exact.value in free && exact.value in blk && blk[exact.value].size == n > 0
      ensures exact.None? && found.Some? ==>
        found.value in free && found.value in blk && Smallest(All(), found.value, n) && n < blk[found.value].size
      ensures exact.None? && found.None? ==> NoneFits(All(), n)
    {
      FreeInRange(start, end, All());
      hide FrameTable.Sound, OwnedIn, HeadersOwned, Lists.Sound;
      exact, found, at := FindFit(free, blk, n);
    }

    method SplitOff(found: nat, n: nat) returns (p: nat)
      requires Valid() && found in free && found in blk && n < blk[found].size && avail != []
      modifies this`res, this`avail, this`blk
      ensures Valid() <==> n > 0
      ensures mm.Valid() && All() == Split(old(All()), found, n) && p == old(blk)[found].base
    {
      hide FrameTable.Sound, OwnedIn, Lists.Sound, Lists.Abs, Lists.Partition;
      SplitIsCarve(start, end, All(), found, n);
      var hbp := avail[0];
      blk := blk[hbp := Block(blk[found].base, n)];
      blk := blk[found := Block(blk[found].base + n, blk[found].size - n)];
      avail := avail[1..];
      res := [hbp] + res;
      assert All() == Split(old(All()), found, n);
      p := blk[hbp].base;
    }

    /** The rest of `kmalloc` when the best-fitting block is larger than the request. */
    method KmallocSplit(found: nat, n: nat, ghost at: nat) returns (r: Option<nat>)
      requires Valid() && found in free && Smallest(All(), found, n) && n < blk[found].size
      requires at < |free| && found == free[at] && FirstOfSize(free, blk, at)
      modifies this`free, this`res, this`avail, this`blk, mm, mm.meta
      ensures Malloced(old(All()), old(mm.nfree), n, r, All())
      ensures r.Some? ==> TakenInOrder(old(All()), n, r.value, All())
      ensures Valid() <==> n > 0 || r.None?
      ensures mm.Valid() && mm.meta == old(mm.meta)
    {
      hide FrameTable.Sound, OwnedIn, HeadersOwned, Lists.Sound, Lists.Abs, Malloced, Smallest, Lists.Partition,
        FirstOfSize, TakenInOrder;
      ghost var s, frames := All(), mm.nfree;
      var ok := EnsureHeader();
      if !ok {
        MallocedNoHeader(start, end, s, n, found, All());
        return None;
      }
      MallocedSplit(start, end, s, frames, n, All(), found);
      SplitInOrder(s, n, at, All());
      var p := SplitOff(found, n);
      return Some(p);
    }

    method MoveToReserved(h: nat)
      requires Valid() && h in free
      modifies this`free, this`res
      ensures Valid() && mm.Valid() && All() == TakeExact(old(All()), h)
    {
      hide FrameTable.Sound, OwnedIn, Lists.Sound;
      TakeExactIsCarve(start, end, All(), h);
      free := Without(free, h);
      res := [h] + res;
      assert All() == TakeExact(old(All()), h);
    }

    /** `kmalloc`, for any size; `Malloced` says what the call does. A request of 0 that is granted
        reserves an empty block, and exactly then the blocks no longer tile the heap. */
    method Kmalloc(n: Word) returns (r: Option<nat>)
      requires Valid()
      modifies this`free, this`res, this`avail, this`blk, mm, mm.meta
      ensures Malloced(old(All()), old(mm.nfree), n, r, All())
      ensures r.Some? ==> TakenInOrder(old(All()), n, r.value, All())
      ensures Valid() <==> n > 0 || r.None?
      ensures mm.Valid() && mm.meta == old(mm.meta)
    {
      hide FrameTable.Sound, OwnedIn, HeadersOwned, Lists.Sound, Malloced, Smallest, NoneFits, FirstOfSize,
        TakenInOrder;
      var exact, found, at := Search(n);
      if exact.Some? {
        ExactInOrder(All(), n, at);
        MallocedExact(start, end, All(), mm.nfree, n, exact.value);
        MoveToReserved(exact.value);
        return Some(blk[exact.value].base);
      }
      if found.None? {
        MallocedNone(start, end, All(), mm.nfree, n);
        return None;
      }
      r := KmallocSplit(found.value, n, at);
    }

    method ReleaseHeader(h: nat)
      requires Valid() && h in res
      modifies this`free, this`res, this`avail, this`blk
      ensures Valid() && blk.Keys == old(blk.Keys)
      ensures h in old(blk) && KfreeStep(old(Abs()), old(blk)[h].base, Abs())
      ensures FreedInOrder(old(All()), old(blk)[h].base, All())
    {
      hide FrameTable.Sound, OwnedIn, Lists.Sound, Lists.Abs, KfreeStep, FreedInOrder;
      var s' := ReleaseLists(All(), h, start, end);
      free, res, avail, blk := s'.free, s'.res, s'.avail, s'.blk;
    }

    /** `kfree`: 1 and no change when no reserved block starts at `p`; otherwise 0, and the block
        joins the free blocks it touches. */
    method Kfree(p: nat) returns (status: int)
      requires Valid()
      modifies this`free, this`res, this`avail, this`blk
      ensures Valid()
      ensures HeapBlocks.Step(old(Abs()), HeapBlocks.Kfree(p, status), Abs())
      ensures status == 0 || status == 1
      ensures status == 0 <==> exists b :: b in old(Abs()).live && b.base == p
      ensures blk.Keys == old(blk.Keys)
      ensures status == 0 ==> FreedInOrder(old(All()), p, All())
      ensures status == 1 ==> All() == old(All())
    {
      hide FrameTable.Sound, OwnedIn, Lists.Sound, Lists.Abs, FreedInOrder;
      ReservedBlocks(start, end, All());
      var found := FindReserved(res, blk, p);
      if found.None? {
        return 1;
      }
      ReleaseHeader(found.value);
      return 0;
    }
  }
}
