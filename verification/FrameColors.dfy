/** The colour discipline of the frame table (include/mm.h, src/mm.c).

    The table keeps no allocation lengths: a frame's colour is all that is stored. This module
    models the colours as a sequence, the two operations on them, and the set of extents a caller
    has been given and not yet returned, and proves that the colours alone determine that set. */
module FrameColors {
  import opened Bits
  import opened Wrappers

  const WHITE: nat := 0
  const RED: nat := 1

  /** `PGCOLOR_SHIFT`: the next of the three colours 1, 2, 3. */
  function Shift(color: nat): nat { color % 3 + 1 }

  /** `len` consecutive frames from `start`. */
  datatype Extent = Extent(start: nat, len: nat) {
    predicate Has(k: int) { start <= k < start + len }
  }

  type Colors = seq<nat>

  predicate Window(c: Colors, i: nat, n: nat) {
    i + n <= |c| && forall k :: i <= k < i + n ==> c[k] == WHITE
  }

  /** A maximal stretch of frames of one colour other than white. */
  ghost predicate MaximalRun(c: Colors, e: Extent) {
    && 1 <= e.len && e.start + e.len <= |c|
    && c[e.start] != WHITE
    && (forall k :: e.start <= k < e.start + e.len ==> c[k] == c[e.start])
    && (e.start > 0 ==> c[e.start - 1] != c[e.start])
    && (e.start + e.len < |c| ==> c[e.start + e.len] != c[e.start])
  }

  // ---------------------------------------------------------------- operations on colours

  function Paint(c: Colors, e: Extent, color: nat): (r: Colors)
    ensures |r| == |c|
    ensures forall k :: 0 <= k < |c| ==> r[k] == if e.Has(k) then color else c[k]
  {
    seq(|c|, k requires 0 <= k < |c| => if e.Has(k) then color else c[k])
  }

  /** Lowest index from `i` on at which `n` white frames start. */
  function FirstFitFrom(c: Colors, n: nat, i: nat): (r: Option<nat>)
    ensures r.Some? ==> i <= r.value && Window(c, r.value, n)
    ensures forall j :: i <= j && (r.Some? ==> j < r.value) ==> !Window(c, j, n)
    decreases |c| - i
  {
    if i + n > |c| then None
    else if Window(c, i, n) then Some(i)
    else if i == |c| then None
    else FirstFitFrom(c, n, i + 1)
  }

  /** What `find_seq_pages` looks for; a request for no pages is never met. */
  function FirstFit(c: Colors, n: nat): Option<nat> {
    if n == 0 then None else FirstFitFrom(c, n, 0)
  }

  /** The colour `alloc_frames` gives to a new extent. */
  function Marker(c: Colors, e: Extent): nat
    requires e.start + e.len <= |c|
  {
    if e.start == 0 && e.len == |c| then RED
    else if e.start == 0 then Shift(c[e.len])
    else if e.start + e.len == |c| then Shift(c[e.start - 1])
    else
      var left, right := c[e.start - 1], c[e.start + e.len];
      if right == left || right == WHITE then Shift(left) else Xor(left, right)
  }

  function RunStart(c: Colors, i: nat): (s: nat)
    requires i < |c|
    ensures s <= i && (forall k :: s <= k <= i ==> c[k] == c[i])
    ensures s > 0 ==> c[s - 1] != c[i]
  {
    if i > 0 && c[i - 1] == c[i] then RunStart(c, i - 1) else i
  }

  function RunEnd(c: Colors, i: nat): (t: nat)
    requires i < |c|
    ensures i < t <= |c| && (forall k :: i <= k < t ==> c[k] == c[i])
    ensures t < |c| ==> c[t] != c[i]
    decreases |c| - i
  {
    if i + 1 < |c| && c[i + 1] == c[i] then RunEnd(c, i + 1) else i + 1
  }

  /** The extent `free_frames` recovers from a frame inside it. */
  function RunAround(c: Colors, i: nat): Extent
    requires i < |c|
  {
    Extent(RunStart(c, i), RunEnd(c, i) - RunStart(c, i))
  }

  function CountWhite(c: Colors): nat {
    if c == [] then 0 else CountWhite(c[..|c| - 1]) + (if c[|c| - 1] == WHITE then 1 else 0)
  }

  // ------------------------------------------------------------------------------ runs

  /** The colours together with the extents handed out and not yet freed. */
  datatype State = State(colors: Colors, live: set<Extent>)

  /** `Free(i)` stands for `free_frames` on any address inside frame `i`. */
  datatype Op = Alloc(n: nat) | Free(i: nat)

  function Init(frames: nat): State {
    State(seq(frames, _ => WHITE), {})
  }

  function Step(s: State, op: Op): State {
    match op
    case Alloc(n) =>
      (match FirstFit(s.colors, n)
       case None => s
       case Some(i) =>
         var e := Extent(i, n);
         State(Paint(s.colors, e, Marker(s.colors, e)), s.live + {e}))
    case Free(i) =>
      if i < |s.colors| && s.colors[i] != WHITE
      then State(Paint(s.colors, RunAround(s.colors, i), WHITE),
                 set e | e in s.live && !e.Has(i))
      else s
  }

  function Run(s: State, ops: seq<Op>): State {
    if ops == [] then s else Step(Run(s, ops[..|ops| - 1]), ops[|ops| - 1])
  }

  /** The colours decode the allocations: live extents are exactly the maximal coloured runs. */
  ghost predicate Inv(s: State) {
    && (forall k :: 0 <= k < |s.colors| ==> s.colors[k] <= 3)
    && (forall e :: e in s.live <==> MaximalRun(s.colors, e))
  }

  // ------------------------------------------------------------------------------ proofs

  lemma {:induction false} XorStep(a: nat, b: nat)
    ensures Xor(0, b) == b && Xor(a, 0) == a
    ensures a > 0 && b > 0 ==> Xor(a, b) == 2 * Xor(a / 2, b / 2) + (if a % 2 == b % 2 then 0 else 1)
  {
  }

  lemma {:induction false} XorOfColors(a: nat, b: nat)
    requires 1 <= a <= 3 && 1 <= b <= 3 && a != b
    ensures Xor(a, b) == 6 - a - b
  {
    XorStep(a, b);
    XorStep(a / 2, b / 2);
    hide Xor;
  }

  /** The chosen colour is one of 1, 2, 3 and differs from both neighbours; the left neighbour
      of a first-fit window is never white, so the ASSERT in `alloc_frames` holds. */
  lemma {:induction false} MarkerIsFresh(c: Colors, n: nat, i: nat)
    requires forall k :: 0 <= k < |c| ==> c[k] <= 3
    requires FirstFit(c, n) == Some(i)
    ensures i > 0 ==> c[i - 1] != WHITE
    ensures 1 <= Marker(c, Extent(i, n)) <= 3
    ensures i > 0 ==> Marker(c, Extent(i, n)) != c[i - 1]
    ensures i + n < |c| ==> Marker(c, Extent(i, n)) != c[i + n]
  {
    if i > 0 {
      assert !Window(c, i - 1, n);
      if i + n < |c| && c[i + n] != c[i - 1] && c[i + n] != WHITE {
        XorOfColors(c[i - 1], c[i + n]);
      }
    }
  }

  /** Two maximal runs sharing a frame are the same run. */
  lemma {:induction false} RunsOfOneColorAgree(c: Colors, a: Extent, b: Extent, k: int)
    requires MaximalRun(c, a) && MaximalRun(c, b)
    requires a.Has(k) && b.Has(k)
    ensures a == b
  {
    assert c[a.start] == c[k] == c[b.start];
  }

  lemma {:induction false} DistinctRunsDisjoint(c: Colors, a: Extent, b: Extent)
    requires MaximalRun(c, a) && MaximalRun(c, b) && a != b
    ensures forall k :: a.Has(k) ==> !b.Has(k)
  {
    forall k | a.Has(k) ensures !b.Has(k) {
      if b.Has(k) { RunsOfOneColorAgree(c, a, b, k); }
    }
  }

  /** Colouring a white window with a colour different from its neighbours adds one run. */
  /** The colours by value: 1 for a window that is the whole table, the third colour between two that
      differ, and otherwise the one after the neighbour in the cycle 1, 2, 3. */
  lemma {:induction false} MarkerValues(c: Colors, e: Extent)
    requires 1 <= e.len && e.start + e.len <= |c| && forall k :: 0 <= k < |c| ==> c[k] <= 3
    requires e.start > 0 ==> c[e.start - 1] != WHITE
    ensures var l := if e.start > 0 then c[e.start - 1] else 0;
      var r := if e.start + e.len < |c| then c[e.start + e.len] else 0;
      var after := map[0 := 1, 1 := 2, 2 := 3, 3 := 1];
      Marker(c, e) == if l != 0 && r != 0 && l != r then 6 - l - r else if l != 0 then after[l] else after[r]
  {
    var l := if e.start > 0 then c[e.start - 1] else 0;
    var r := if e.start + e.len < |c| then c[e.start + e.len] else 0;
    if l != 0 && r != 0 && l != r { XorOfColors(l, r); }
    assert Shift(0) == 1 && Shift(1) == 2 && Shift(2) == 3 && Shift(3) == 1;
    hide Xor;
  }

  lemma {:induction false} PaintAddsRun(c: Colors, w: Extent, m: nat, e: Extent)
    requires w.len >= 1 && Window(c, w.start, w.len)
    requires m != WHITE
    requires w.start > 0 ==> c[w.start - 1] != m
    requires w.start + w.len < |c| ==> c[w.start + w.len] != m
    ensures MaximalRun(Paint(c, w, m), e) <==> e == w || MaximalRun(c, e)
  {
    var d := Paint(c, w, m);
    if MaximalRun(d, e) && e != w {
      assert MaximalRun(d, w);
      DistinctRunsDisjoint(d, w, e);
      assert e.Has(e.start);
    }
    if MaximalRun(c, e) {
      forall k | e.Has(k) ensures !w.Has(k) { assert c[k] == c[e.start]; }
      assert e.Has(e.start);
    }
  }

  /** Whitening one maximal run removes it and no other. */
  lemma {:induction false} WhitenRemovesRun(c: Colors, w: Extent, e: Extent)
    requires MaximalRun(c, w)
    ensures MaximalRun(Paint(c, w, WHITE), e) <==> e != w && MaximalRun(c, e)
  {
    var d := Paint(c, w, WHITE);
    if MaximalRun(d, e) {
      forall k | e.Has(k) ensures !w.Has(k) { assert d[k] == d[e.start]; }
      assert e.Has(e.start);
      assert MaximalRun(c, e);
      assert e != w;
    }
    if MaximalRun(c, e) && e != w {
      DistinctRunsDisjoint(c, w, e);
      assert e.Has(e.start);
      assert MaximalRun(d, e);
    }
  }

  /** `free_frames` on any frame of a live allocation recovers exactly that allocation. */
  lemma {:induction false} FreeRecoversExtent(s: State, e: Extent, i: nat)
    requires Inv(s) && e in s.live && e.Has(i)
    ensures i < |s.colors| && s.colors[i] != WHITE
    ensures RunAround(s.colors, i) == e
    ensures Step(s, Free(i)).live == s.live - {e}
    ensures forall k :: 0 <= k < |s.colors| ==>
      Step(s, Free(i)).colors[k] == if e.Has(k) then WHITE else s.colors[k]
  {
    assert MaximalRun(s.colors, e);
    var r := RunAround(s.colors, i);
    assert MaximalRun(s.colors, r);
    RunsOfOneColorAgree(s.colors, e, r, i);
    forall f | f in s.live && f.Has(i) ensures f == e {
      RunsOfOneColorAgree(s.colors, e, f, i);
    }
  }

  ghost predicate LiveAt(s: State, i: nat) {
    exists e :: e in s.live && e.Has(i)
  }

  /** Every coloured frame lies in a live extent, and every frame of a live extent is coloured. */
  lemma {:induction false} ColoredIffLive(s: State, i: nat)
    requires Inv(s) && i < |s.colors|
    ensures s.colors[i] != WHITE <==> LiveAt(s, i)
  {
    if s.colors[i] != WHITE {
      var r := RunAround(s.colors, i);
      assert MaximalRun(s.colors, r);
      assert r in s.live && r.Has(i);
    }
    if e :| e in s.live && e.Has(i) { FreeRecoversExtent(s, e, i); }
  }

  lemma {:induction false} AllocKeepsInv(s: State, n: nat)
    requires Inv(s)
    ensures Inv(Step(s, Alloc(n)))
  {
    if FirstFit(s.colors, n).Some? {
      var s', i := Step(s, Alloc(n)), FirstFit(s.colors, n).value;
      var w := Extent(i, n);
      MarkerIsFresh(s.colors, n, i);
      var m := Marker(s.colors, w);
      forall e ensures e in s'.live <==> MaximalRun(s'.colors, e) {
        PaintAddsRun(s.colors, w, m, e);
      }
    }
  }

  lemma {:induction false} FreeKeepsInv(s: State, i: nat)
    requires Inv(s)
    ensures Inv(Step(s, Free(i)))
  {
    if i < |s.colors| && s.colors[i] != WHITE {
      var s', w := Step(s, Free(i)), RunAround(s.colors, i);
      assert MaximalRun(s.colors, w);
      FreeRecoversExtent(s, w, i);
      forall e ensures e in s'.live <==> MaximalRun(s'.colors, e) {
        WhitenRemovesRun(s.colors, w, e);
      }
    }
  }

  lemma {:induction false} StepKeepsInv(s: State, op: Op)
    requires Inv(s)
    ensures Inv(Step(s, op))
  {
    hide Inv, Step;
    match op
    case Alloc(n) => AllocKeepsInv(s, n);
    case Free(i) => FreeKeepsInv(s, i);
  }

  /** Main result: after any run of allocations and frees from a fresh table, every colour is
      below four and the maximal coloured runs are exactly the live allocations. */
  lemma {:induction false} RunDecodesAllocations(frames: nat, ops: seq<Op>)
    ensures Inv(Run(Init(frames), ops))
    ensures |Run(Init(frames), ops).colors| == frames
  {
    if ops == [] {
      var s := Init(frames);
      forall e ensures !MaximalRun(s.colors, e) { }
    } else {
      var before := Run(Init(frames), ops[..|ops| - 1]);
      RunDecodesAllocations(frames, ops[..|ops| - 1]);
      StepKeepsInv(before, ops[|ops| - 1]);
    }
  }

  /** Live allocations never overlap. */
  lemma {:induction false} LiveExtentsDisjoint(s: State, a: Extent, b: Extent)
    requires Inv(s) && a in s.live && b in s.live && a != b
    ensures forall k :: !(a.Has(k) && b.Has(k))
  {
    DistinctRunsDisjoint(s.colors, a, b);
  }

  /** A fresh allocation shares no frame with any live one. */
  lemma {:induction false} AllocIsFresh(s: State, n: nat, e: Extent)
    requires Inv(s) && FirstFit(s.colors, n).Some? && e in s.live
    ensures var w := Extent(FirstFit(s.colors, n).value, n);
      forall k :: !(w.Has(k) && e.Has(k))
  {
    var w := Extent(FirstFit(s.colors, n).value, n);
    forall k ensures !(w.Has(k) && e.Has(k)) {
      if e.Has(k) { FreeRecoversExtent(s, e, k); }
    }
  }

  /** An allocation takes frames that were not live, and leaves every other live frame live. */
  lemma {:induction false} AllocLiveness(s: State, n: nat, k: nat)
    requires Inv(s) && FirstFit(s.colors, n).Some?
    ensures var w := Extent(FirstFit(s.colors, n).value, n);
      && w in Step(s, Alloc(n)).live
      && (w.Has(k) ==> !LiveAt(s, k))
      && (LiveAt(Step(s, Alloc(n)), k) <==> LiveAt(s, k) || w.Has(k))
  {
    var s', w := Step(s, Alloc(n)), Extent(FirstFit(s.colors, n).value, n);
    forall e | e in s.live ensures !(w.Has(k) && e.Has(k)) { AllocIsFresh(s, n, e); }
    if LiveAt(s, k) { var e :| e in s.live && e.Has(k); assert e in s'.live; }
    assert w in s'.live;
    if LiveAt(s', k) && !w.Has(k) { var e :| e in s'.live && e.Has(k); assert e in s.live; }
  }

  /** Freeing an allocation just made restores the table. */
  lemma {:induction false} AllocThenFree(s: State, n: nat, k: nat)
    requires Inv(s) && FirstFit(s.colors, n).Some?
    requires Extent(FirstFit(s.colors, n).value, n).Has(k)
    ensures Step(Step(s, Alloc(n)), Free(k)) == s
  {
    var e := Extent(FirstFit(s.colors, n).value, n);
    var s1 := Step(s, Alloc(n));
    StepKeepsInv(s, Alloc(n));
    FreeRecoversExtent(s1, e, k);
    if e in s.live { AllocIsFresh(s, n, e); assert false; }
    assert s1.live - {e} == s.live;
    assert Step(s1, Free(k)).colors == s.colors;
  }

  // ---------------------------------------------------------------------- free counting

  lemma {:induction false} CountWhiteSplit(c: Colors, i: nat)
    requires i <= |c|
    ensures CountWhite(c) == CountWhite(c[..i]) + CountWhite(c[i..])
  {
    if i == |c| {
      assert c[..i] == c;
    } else {
      var p := c[..|c| - 1];
      CountWhiteSplit(p, i);
      assert p[..i] == c[..i];
      assert c[i..][..|c| - i - 1] == p[i..];
    }
  }

  lemma {:induction false} CountWhiteUniform(c: Colors, color: nat)
    requires forall k :: 0 <= k < |c| ==> c[k] == color
    ensures CountWhite(c) == if color == WHITE then |c| else 0
  {
    if c != [] { CountWhiteUniform(c[..|c| - 1], color); }
  }

  /** Repainting a stretch of one colour moves the count by its whole length. */
  lemma {:induction false} CountWhitePaint(c: Colors, e: Extent, color: nat)
    requires e.len >= 1 && e.start + e.len <= |c|
    requires forall k :: e.Has(k) ==> c[k] == c[e.start]
    ensures CountWhite(Paint(c, e, color)) ==
            CountWhite(c) - (if c[e.start] == WHITE then e.len else 0)
                          + (if color == WHITE then e.len else 0)
  {
    var d := Paint(c, e, color);
    var t := e.start + e.len;
    CountWhiteSplit(c, t);
    CountWhiteSplit(d, t);
    CountWhiteSplit(c[..t], e.start);
    CountWhiteSplit(d[..t], e.start);
    assert d[t..] == c[t..];
    assert d[..t][..e.start] == c[..t][..e.start];
    assert e.Has(e.start);
    CountWhiteUniform(c[..t][e.start..], c[e.start]);
    CountWhiteUniform(d[..t][e.start..], color);
  }

  /** The early exit of `find_seq_pages` on `nfree` never hides a window. */
  lemma {:induction false} WindowNeedsFree(c: Colors, i: nat, n: nat)
    requires Window(c, i, n)
    ensures n <= CountWhite(c)
  {
    CountWhiteSplit(c, i + n);
    CountWhiteSplit(c[..i + n], i);
    CountWhiteUniform(c[..i + n][i..], WHITE);
  }

  /** First fit is exact: the lowest window, and none only when there is none. */
  lemma {:induction false} FirstFitIsLowest(c: Colors, n: nat, i: nat)
    requires n >= 1
    ensures FirstFit(c, n) == Some(i) <==> Window(c, i, n) && forall j: nat :: j < i ==> !Window(c, j, n)
    ensures FirstFit(c, n) == None <==> forall j: nat :: !Window(c, j, n)
  {
    if Window(c, i, n) && (forall j: nat :: j < i ==> !Window(c, j, n)) {
      assert FirstFit(c, n).Some?;
      assert FirstFit(c, n).value == i;
    }
  }

  /** What an allocation paints. */
  lemma {:induction false} AllocPaints(s: State, n: nat)
    requires Inv(s) && FirstFit(s.colors, n).Some?
    ensures var e := Extent(FirstFit(s.colors, n).value, n);
      && 1 <= n && e.start + n <= |s.colors| && Window(s.colors, e.start, n)
      && 1 <= Marker(s.colors, e) <= 3
      && (e.start > 0 ==> s.colors[e.start - 1] != WHITE)
      && Step(s, Alloc(n)).colors == Paint(s.colors, e, Marker(s.colors, e))
  {
    var e := Extent(FirstFit(s.colors, n).value, n);
    MarkerIsFresh(s.colors, n, e.start);
    assert Window(s.colors, e.start, n);
  }

  /** What an allocation does to the abstract table. */
  lemma {:induction false} AllocStep(s: State, n: nat)
    requires Inv(s) && FirstFit(s.colors, n).Some?
    ensures Inv(Step(s, Alloc(n))) && |Step(s, Alloc(n)).colors| == |s.colors|
    ensures CountWhite(Step(s, Alloc(n)).colors) == CountWhite(s.colors) - n
  {
    hide Inv, Marker;
    var e := Extent(FirstFit(s.colors, n).value, n);
    AllocPaints(s, n);
    StepKeepsInv(s, Alloc(n));
    assert e.Has(e.start);
    CountWhitePaint(s.colors, e, Marker(s.colors, e));
  }

  /** What freeing a coloured frame paints. */
  lemma {:induction false} FreePaints(s: State, i: nat)
    requires Inv(s) && i < |s.colors| && s.colors[i] != WHITE
    ensures var e := RunAround(s.colors, i);
      && e.start == RunStart(s.colors, i) && e.start + e.len == RunEnd(s.colors, i)
      && Step(s, Free(i)).colors == Paint(s.colors, e, WHITE)
      && CountWhite(Step(s, Free(i)).colors) == CountWhite(s.colors) + e.len
  {
    var e := RunAround(s.colors, i);
    assert MaximalRun(s.colors, e) && e.Has(e.start);
    CountWhitePaint(s.colors, e, WHITE);
  }

  /** What freeing a coloured frame does to the abstract table. */
  lemma {:induction false} FreeStep(s: State, i: nat)
    requires Inv(s) && i < |s.colors| && s.colors[i] != WHITE
    ensures Inv(Step(s, Free(i))) && |Step(s, Free(i)).colors| == |s.colors|
  {
    StepKeepsInv(s, Free(i));
    hide Inv;
  }

  lemma {:induction false} NoWhiteCountsZero(c: Colors)
    requires forall k :: 0 <= k < |c| ==> c[k] != WHITE
    ensures CountWhite(c) == 0
  {
    if c != [] { NoWhiteCountsZero(c[..|c| - 1]); }
  }

  /** A single frame can be had exactly when some frame is free. */
  lemma {:induction false} OneFrameIffFree(c: Colors)
    ensures FirstFit(c, 1).Some? <==> CountWhite(c) > 0
  {
    if FirstFit(c, 1).Some? {
      WindowNeedsFree(c, FirstFit(c, 1).value, 1);
    } else {
      forall k | 0 <= k < |c| ensures c[k] != WHITE { assert !Window(c, k, 1); }
      NoWhiteCountsZero(c);
    }
  }
}
