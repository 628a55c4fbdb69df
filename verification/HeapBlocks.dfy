/** What the kernel heap of src/kmalloc.c guarantees, stated on the sets of free and reserved
    blocks: best-fit carving, one-pass merging, and the invariant that makes them correct. */
module HeapBlocks {
  import opened Wrappers

  datatype Block = Block(base: nat, size: nat) {
    function End(): nat { base + size }
    predicate Covers(x: int) { base <= x < base + size }
  }

  datatype State = State(free: set<Block>, live: set<Block>) {
    function All(): set<Block> { free + live }
  }

  predicate Apart(a: Block, b: Block) { a.End() <= b.base || b.End() <= a.base }

  ghost predicate Covered(blocks: set<Block>, x: int) {
    exists b :: b in blocks && b.Covers(x)
  }

  /** Non-empty blocks that do not overlap. */
  ghost predicate Separated(blocks: set<Block>) {
    && (forall b :: b in blocks ==> b.size > 0)
    && (forall a, b :: a in blocks && b in blocks && a != b ==> Apart(a, b))
  }

  ghost predicate NoneAdjacent(blocks: set<Block>) {
    forall a, b :: a in blocks && b in blocks ==> a.End() != b.base
  }

  ghost predicate Within(start: nat, end: nat, blocks: set<Block>) {
    forall b :: b in blocks ==> start <= b.base && b.End() <= end
  }

  ghost predicate CoversAll(start: nat, end: nat, blocks: set<Block>) {
    forall x :: start <= x < end ==> Covered(blocks, x)
  }

  /** Free and reserved blocks tile [start, end) and no two free blocks touch. */
  ghost predicate Tiles(start: nat, end: nat, s: State) {
    && s.free !! s.live
    && Separated(s.All())
    && Within(start, end, s.All())
    && CoversAll(start, end, s.All())
    && NoneAdjacent(s.free)
  }

  // ------------------------------------------------------------------------------ steps

  predicate BestFit(free: set<Block>, n: nat, f: Block) {
    f in free && f.size >= n && forall g :: g in free && g.size >= n ==> f.size <= g.size
  }

  /** The low part of `f` becomes a reserved block, the rest stays free. */
  function Carve(s: State, f: Block, n: nat): State
    requires f.size >= n
  {
    State(s.free - {f} + (if f.size == n then {} else {Block(f.base + n, f.size - n)}),
          s.live + {Block(f.base, n)})
  }

  ghost predicate LeftNeighbour(free: set<Block>, b: Block, l: Option<Block>) {
    if l.Some? then l.value in free && l.value.End() == b.base
    else forall f :: f in free ==> f.End() != b.base
  }

  ghost predicate RightNeighbour(free: set<Block>, b: Block, r: Option<Block>) {
    if r.Some? then r.value in free && r.value.base == b.End()
    else forall f :: f in free ==> f.base != b.End()
  }

  function Merged(b: Block, l: Option<Block>, r: Option<Block>): Block {
    Block(if l.Some? then l.value.base else b.base,
          (if l.Some? then l.value.size else 0) + b.size + (if r.Some? then r.value.size else 0))
  }

  function AsSet(o: Option<Block>): set<Block> { if o.Some? then {o.value} else {} }

  /** `b` goes back to the free set, absorbing the free blocks it touches. */
  function Release(s: State, b: Block, l: Option<Block>, r: Option<Block>): State {
    State(s.free - AsSet(l) - AsSet(r) + {Merged(b, l, r)}, s.live - {b})
  }

  /** A call together with what it returned; status 0 is success. */
  datatype Op = Malloc(n: nat, result: Option<nat>) | Kfree(p: nat, status: int)

  ghost predicate MallocStep(s: State, n: nat, p: nat, s': State) {
    exists f :: BestFit(s.free, n, f) && f.base == p && s' == Carve(s, f, n)
  }

  ghost predicate KfreeStep(s: State, p: nat, s': State) {
    exists b, l, r ::
      b in s.live && b.base == p && LeftNeighbour(s.free, b, l) && RightNeighbour(s.free, b, r)
      && s' == Release(s, b, l, r)
  }

  ghost predicate Step(s: State, op: Op, s': State) {
    match op
    case Malloc(n, None) => s' == s
    case Malloc(n, Some(p)) => n > 0 && MallocStep(s, n, p, s')
    case Kfree(p, status) =>
      if status == 0 then KfreeStep(s, p, s')
      else s' == s && forall b :: b in s.live ==> b.base != p
  }

  function Init(start: nat, end: nat): State
    requires start <= end
  {
    State({Block(start, end - start)}, {})
  }

  /** States `ss` visited by the calls `ops`. */
  ghost predicate Trace(ss: seq<State>, ops: seq<Op>) {
    |ss| == |ops| + 1 && forall i :: 0 <= i < |ops| ==> Step(ss[i], ops[i], ss[i + 1])
  }

  // ----------------------------------------------------------------------------- tiling

  lemma {:induction false} CarveApart(start: nat, end: nat, s: State, f: Block, n: nat, g: Block)
    requires Tiles(start, end, s) && f in s.free && 0 < n <= f.size && g in s.All() && g != f
    ensures var b, rest := Block(f.base, n), Block(f.base + n, f.size - n);
      Apart(g, f) && g != b && Apart(g, b) && Apart(g, rest) && (n < f.size ==> g != rest)
      && (g in s.free ==> g.End() != rest.base && rest.End() != g.base)
  {
    assert f in s.All() && Apart(g, f);
  }

  lemma {:induction false} CarveCovers(start: nat, end: nat, s: State, f: Block, n: nat, x: int)
    requires Tiles(start, end, s) && f in s.free && 0 < n <= f.size && start <= x < end
    ensures Covered(Carve(s, f, n).All(), x)
  {
    var s' := Carve(s, f, n);
    var b, rest := Block(f.base, n), Block(f.base + n, f.size - n);
    assert Covered(s.All(), x);
    var g :| g in s.All() && g.Covers(x);
    if g == f && x < f.base + n {
      assert b in s'.All() && b.Covers(x);
    } else if g == f {
      assert rest in s'.All() && rest.Covers(x);
    } else {
      assert g in s'.All();
    }
  }

  /** The blocks after carving are the old ones without `f` and its two parts. */
  lemma {:induction false} CarveBlocks(start: nat, end: nat, s: State, f: Block, n: nat)
    requires Tiles(start, end, s) && f in s.free && 0 < n <= f.size
    ensures var s', b, rest := Carve(s, f, n), Block(f.base, n), Block(f.base + n, f.size - n);
      && (forall g :: g in s'.All() && g != b && g != rest ==> g in s.All() && Apart(g, b) && Apart(g, rest))
      && (forall g :: g in s'.free && g != rest ==> g in s.free && g.End() != rest.base && rest.End() != g.base)
      && (rest in s'.All() ==> rest.size > 0)
      && b !in s'.free && (rest in s'.free ==> rest !in s'.live)
  {
    var s' := Carve(s, f, n);
    var b, rest := Block(f.base, n), Block(f.base + n, f.size - n);
    assert f in s.All();
    forall g | g in s.All() && g != f
      ensures Apart(g, b) && Apart(g, rest) && g != b && (n < f.size ==> g != rest)
      ensures g in s.free ==> g.End() != rest.base && rest.End() != g.base
    {
      CarveApart(start, end, s, f, n, g);
    }
    hide CoversAll, NoneAdjacent;
    assert forall g :: g in s'.All() && g != b && g != rest ==> g in s.All() && g != f;
    assert rest in s'.All() ==> rest.size > 0;
  }

  lemma {:induction false} CarveSeparated(start: nat, end: nat, s: State, f: Block, n: nat)
    requires Tiles(start, end, s) && f in s.free && 0 < n <= f.size
    ensures var s' := Carve(s, f, n); Separated(s'.All()) && Within(start, end, s'.All())
  {
    CarveBlocks(start, end, s, f, n);
    assert f in s.All();
    hide CoversAll, NoneAdjacent, Carve;
  }

  lemma {:induction false} CarveFree(start: nat, end: nat, s: State, f: Block, n: nat)
    requires Tiles(start, end, s) && f in s.free && 0 < n <= f.size
    ensures var s' := Carve(s, f, n); s'.free !! s'.live && NoneAdjacent(s'.free)
  {
    CarveBlocks(start, end, s, f, n);
    hide CoversAll, Separated, Within;
  }

  lemma {:induction false} CarveKeepsTiling(start: nat, end: nat, s: State, f: Block, n: nat)
    requires Tiles(start, end, s) && f in s.free && 0 < n <= f.size
    ensures Tiles(start, end, Carve(s, f, n))
  {
    CarveSeparated(start, end, s, f, n);
    CarveFree(start, end, s, f, n);
    var s' := Carve(s, f, n);
    forall x | start <= x < end ensures Covered(s'.All(), x) { CarveCovers(start, end, s, f, n, x); }
    assert CoversAll(start, end, s'.All());
    hide Separated, Within, CoversAll, NoneAdjacent, Carve;
  }

  /** A request for no bytes is the one that breaks the tiling: it reserves an empty block. */
  lemma {:induction false} CarveTilesIffPositive(start: nat, end: nat, s: State, f: Block, n: nat)
    requires Tiles(start, end, s) && f in s.free && n <= f.size
    ensures Tiles(start, end, Carve(s, f, n)) <==> n > 0
  {
    if n > 0 {
      CarveKeepsTiling(start, end, s, f, n);
    } else {
      assert Block(f.base, 0) in Carve(s, f, 0).All();
    }
  }

  /** Everything but the merged block is as far from it as it was from its parts. */
  lemma {:induction false} ReleaseApart(
      start: nat, end: nat, s: State, b: Block, l: Option<Block>, r: Option<Block>, g: Block)
    requires Tiles(start, end, s) && b in s.live
    requires LeftNeighbour(s.free, b, l) && RightNeighbour(s.free, b, r)
    requires g in s.All() && g != b && g !in AsSet(l) && g !in AsSet(r)
    ensures Apart(g, Merged(b, l, r)) && g != Merged(b, l, r)
    ensures g in s.free ==> g.End() != Merged(b, l, r).base && Merged(b, l, r).End() != g.base
  {
    assert Apart(g, b);
    if l.Some? { assert Apart(g, l.value); }
    if r.Some? { assert Apart(g, r.value); }
    assert g.size > 0;
  }

  lemma {:induction false} ReleaseCovers(
      start: nat, end: nat, s: State, b: Block, l: Option<Block>, r: Option<Block>, x: int)
    requires Tiles(start, end, s) && b in s.live && start <= x < end
    requires LeftNeighbour(s.free, b, l) && RightNeighbour(s.free, b, r)
    ensures Covered(Release(s, b, l, r).All(), x)
  {
    var s', m := Release(s, b, l, r), Merged(b, l, r);
    assert Covered(s.All(), x);
    var g :| g in s.All() && g.Covers(x);
    if g == b || g in AsSet(l) || g in AsSet(r) {
      assert m in s'.All() && m.Covers(x);
    } else {
      assert g in s'.All();
    }
  }

  /** The blocks after a release are the old ones without the merged three, and the merged block. */
  lemma {:induction false} ReleaseBlocks(start: nat, end: nat, s: State, b: Block, l: Option<Block>, r: Option<Block>)
    requires Tiles(start, end, s) && b in s.live
    requires LeftNeighbour(s.free, b, l) && RightNeighbour(s.free, b, r)
    ensures var s', m := Release(s, b, l, r), Merged(b, l, r);
      && (forall g :: g in s'.All() && g != m ==> g in s.All() && Apart(g, m))
      && (forall g :: g in s'.free && g != m ==> g in s.free && g.End() != m.base && m.End() != g.base)
      && m !in s'.live && m.size > 0 && start <= m.base && m.End() <= end
  {
    var s', m := Release(s, b, l, r), Merged(b, l, r);
    assert b in s.All() && (l.Some? ==> l.value in s.All()) && (r.Some? ==> r.value in s.All());
    forall g | g in s.All() && g != b && g !in AsSet(l) && g !in AsSet(r)
      ensures Apart(g, m) && g != m && (g in s.free ==> g.End() != m.base && m.End() != g.base)
    {
      ReleaseApart(start, end, s, b, l, r, g);
    }
    hide CoversAll, NoneAdjacent;
    assert forall g :: g in s'.live ==> g in s.All() && g != b && g !in AsSet(l) && g !in AsSet(r);
  }

  lemma {:induction false} ReleaseSeparated(
      start: nat, end: nat, s: State, b: Block, l: Option<Block>, r: Option<Block>)
    requires Tiles(start, end, s) && b in s.live
    requires LeftNeighbour(s.free, b, l) && RightNeighbour(s.free, b, r)
    ensures var s' := Release(s, b, l, r); Separated(s'.All()) && Within(start, end, s'.All())
  {
    ReleaseBlocks(start, end, s, b, l, r);
    hide CoversAll, NoneAdjacent, Release, Merged, LeftNeighbour, RightNeighbour;
  }

  lemma {:induction false} ReleaseFree(start: nat, end: nat, s: State, b: Block, l: Option<Block>, r: Option<Block>)
    requires Tiles(start, end, s) && b in s.live
    requires LeftNeighbour(s.free, b, l) && RightNeighbour(s.free, b, r)
    ensures var s' := Release(s, b, l, r); s'.free !! s'.live && NoneAdjacent(s'.free)
  {
    ReleaseBlocks(start, end, s, b, l, r);
    hide CoversAll, Separated, Within, Merged, LeftNeighbour, RightNeighbour;
  }

  lemma {:induction false} ReleaseKeepsTiling(
      start: nat, end: nat, s: State, b: Block, l: Option<Block>, r: Option<Block>)
    requires Tiles(start, end, s) && b in s.live
    requires LeftNeighbour(s.free, b, l) && RightNeighbour(s.free, b, r)
    ensures Tiles(start, end, Release(s, b, l, r))
  {
    ReleaseSeparated(start, end, s, b, l, r);
    ReleaseFree(start, end, s, b, l, r);
    var s' := Release(s, b, l, r);
    forall x | start <= x < end ensures Covered(s'.All(), x) { ReleaseCovers(start, end, s, b, l, r, x); }
    assert CoversAll(start, end, s'.All());
    hide Separated, Within, CoversAll, NoneAdjacent, Release;
  }

  lemma {:induction false} StepKeepsTiling(start: nat, end: nat, s: State, op: Op, s': State)
    requires Tiles(start, end, s) && Step(s, op, s')
    ensures Tiles(start, end, s')
  {
    match op
    case Malloc(n, result) =>
      if result.Some? {
        var f :| BestFit(s.free, n, f) && f.base == result.value && s' == Carve(s, f, n);
        CarveKeepsTiling(start, end, s, f, n);
      }
    case Kfree(p, status) =>
      if status == 0 {
        var b, l, r :| b in s.live && b.base == p && LeftNeighbour(s.free, b, l)
          && RightNeighbour(s.free, b, r) && s' == Release(s, b, l, r);
        ReleaseKeepsTiling(start, end, s, b, l, r);
      }
  }

  /** Main result: in every run from a fresh heap, after every call, free and reserved blocks
      tile the heap and no two free blocks touch. */
  lemma {:induction false} RunKeepsTiling(start: nat, end: nat, ss: seq<State>, ops: seq<Op>, i: nat)
    requires start < end && Trace(ss, ops) && ss[0] == Init(start, end) && i <= |ops|
    ensures Tiles(start, end, ss[i])
  {
    if i == 0 {
      var b := Block(start, end - start);
      forall x | start <= x < end ensures Covered(ss[0].All(), x) {
        assert b in ss[0].All() && b.Covers(x);
      }
    } else {
      RunKeepsTiling(start, end, ss, ops, i - 1);
      StepKeepsTiling(start, end, ss[i - 1], ops[i - 1], ss[i]);
    }
  }

  // ------------------------------------------------------------------------ canonicity

  lemma {:induction false} EdgesUncovered(a: set<Block>, u: Block)
    requires Separated(a) && NoneAdjacent(a) && u in a
    ensures !Covered(a, u.base - 1) && !Covered(a, u.End())
  {
    forall v | v in a ensures !v.Covers(u.base - 1) && !v.Covers(u.End()) {
      if v != u { assert Apart(u, v); }
    }
  }

  lemma {:induction false} BlockRecovered(a: set<Block>, b: set<Block>, u: Block)
    requires Separated(a) && NoneAdjacent(a) && Separated(b) && NoneAdjacent(b)
    requires forall x :: Covered(a, x) <==> Covered(b, x)
    requires u in a
    ensures u in b
  {
    assert u.Covers(u.base) && Covered(a, u.base);
    var v :| v in b && v.Covers(u.base);
    EdgesUncovered(a, u);
    EdgesUncovered(b, v);
    assert v.base < u.base ==> Covered(b, u.base - 1) by { assert v.base < u.base ==> v.Covers(u.base - 1); }
    assert v.End() < u.End() ==> Covered(a, v.End()) by { assert v.End() < u.End() ==> u.Covers(v.End()); }
    assert u.End() < v.End() ==> Covered(b, u.End()) by { assert u.End() < v.End() ==> v.Covers(u.End()); }
  }

  /** Free blocks are determined by the free bytes: separated, non-adjacent block sets that
      cover the same bytes are equal. */
  lemma {:induction false} FreeBytesDetermineBlocks(a: set<Block>, b: set<Block>)
    requires Separated(a) && NoneAdjacent(a) && Separated(b) && NoneAdjacent(b)
    requires forall x :: Covered(a, x) <==> Covered(b, x)
    ensures a == b
  {
    forall u ensures u in a <==> u in b {
      if u in a { BlockRecovered(a, b, u); }
      if u in b { BlockRecovered(b, a, u); }
    }
  }

  lemma {:induction false} FreeBytes(start: nat, end: nat, s: State, x: int)
    requires Tiles(start, end, s)
    ensures Covered(s.free, x) <==> start <= x < end && !Covered(s.live, x)
  {
    if b :| b in s.free && b.Covers(x) {
      assert b in s.All();
      forall c | c in s.live ensures !c.Covers(x) {
        assert c in s.All() && c != b;
        assert Apart(b, c);
      }
    } else if start <= x < end {
      assert Covered(s.All(), x);
      var b :| b in s.All() && b.Covers(x);
      assert b in s.live;
    }
  }

  /** In a tiled heap the free bytes are those no reserved block covers, so the free blocks are
      a function of the reserved ones. */
  lemma {:induction false} LiveDeterminesFree(start: nat, end: nat, s: State, t: State)
    requires Tiles(start, end, s) && Tiles(start, end, t) && s.live == t.live
    ensures s == t
  {
    forall x ensures Covered(s.free, x) <==> Covered(t.free, x) {
      FreeBytes(start, end, s, x);
      FreeBytes(start, end, t, x);
    }
    FreeBytesDetermineBlocks(s.free, t.free);
  }

  lemma {:induction false} CarvedIsNew(start: nat, end: nat, s: State, f: Block, n: nat)
    requires Tiles(start, end, s) && f in s.free && 0 < n <= f.size
    ensures Block(f.base, n) !in s.live
  {
    var c := Block(f.base, n);
    assert f in s.All();
    assert c in s.live ==> c in s.All() && c != f;
    assert c in s.live ==> Apart(c, f);
  }

  /** Freeing the base of a reserved block succeeds and unreserves that block alone. */
  lemma {:induction false} KfreeRemoves(start: nat, end: nat, s: State, c: Block, status: int, s': State)
    requires Tiles(start, end, s) && c in s.live && Step(s, Kfree(c.base, status), s')
    ensures status == 0 && s'.live == s.live - {c}
  {
    var b, l, r :| b in s.live && b.base == c.base && LeftNeighbour(s.free, b, l)
      && RightNeighbour(s.free, b, r) && s' == Release(s, b, l, r);
    assert b in s.All() && c in s.All();
    assert b != c ==> Apart(b, c);
  }

  /** Allocating and immediately freeing restores the free blocks exactly. */
  lemma {:induction false} MallocKfreeRoundTrip(
      start: nat, end: nat, s: State, n: nat, p: nat, s1: State, status: int, s2: State)
    requires Tiles(start, end, s)
    requires Step(s, Malloc(n, Some(p)), s1) && Step(s1, Kfree(p, status), s2)
    ensures status == 0 && s2 == s
  {
    var f :| BestFit(s.free, n, f) && f.base == p && s1 == Carve(s, f, n);
    CarvedIsNew(start, end, s, f, n);
    StepKeepsTiling(start, end, s, Malloc(n, Some(p)), s1);
    StepKeepsTiling(start, end, s1, Kfree(p, status), s2);
    KfreeRemoves(start, end, s1, Block(p, n), status, s2);
    assert s2.live == s.live;
    LiveDeterminesFree(start, end, s, s2);
  }

  /** With nothing reserved the heap is one free block. */
  lemma {:induction false} NothingLiveIsWhole(start: nat, end: nat, s: State)
    requires start < end && Tiles(start, end, s) && s.live == {}
    ensures s.free == {Block(start, end - start)}
  {
    RunKeepsTiling(start, end, [Init(start, end)], [], 0);
    LiveDeterminesFree(start, end, s, Init(start, end));
  }

  lemma {:induction false} DrainStep(start: nat, end: nat, ss: seq<State>, ops: seq<Op>, k: nat)
    requires Trace(ss, ops) && Tiles(start, end, ss[0]) && k <= |ops|
    requires forall i :: 0 <= i < |ops| ==> ops[i].Kfree?
    ensures Tiles(start, end, ss[k])
    ensures ss[k].live <= ss[0].live
    ensures forall b, i :: b in ss[k].live && 0 <= i < k ==> ops[i].p != b.base
  {
    if k > 0 {
      DrainStep(start, end, ss, ops, k - 1);
      var s, op, s' := ss[k - 1], ops[k - 1], ss[k];
      assert Step(s, op, s');
      StepKeepsTiling(start, end, s, op, s');
      if op.status == 0 {
        var b, l, r :| b in s.live && b.base == op.p && LeftNeighbour(s.free, b, l)
          && RightNeighbour(s.free, b, r) && s' == Release(s, b, l, r);
        forall c | c in s'.live ensures c.base != op.p {
          assert c in s.All() && b in s.All() && c != b;
          assert Apart(b, c);
        }
      }
    }
  }

  /** Freeing every reserved block, in any order and with any other frees in between, leaves a
      single free block. */
  lemma {:induction false} DrainInAnyOrder(start: nat, end: nat, ss: seq<State>, ops: seq<Op>)
    requires start < end && Trace(ss, ops) && Tiles(start, end, ss[0])
    requires forall i :: 0 <= i < |ops| ==> ops[i].Kfree?
    requires forall b :: b in ss[0].live ==> exists i :: 0 <= i < |ops| && ops[i].p == b.base
    ensures ss[|ops|] == Init(start, end)
  {
    DrainStep(start, end, ss, ops, |ops|);
    assert ss[|ops|].live == {};
    NothingLiveIsWhole(start, end, ss[|ops|]);
  }
}
