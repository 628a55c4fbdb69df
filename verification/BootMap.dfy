/** The mapping loops of `init_paging` (src/mm.c): the kernel space mapped to itself, then the
    available memory above it at consecutive virtual pages. */
module BootMap {
  import opened Wrappers
  import opened Bits
  import opened FrameAllocator
  import opened PageTables
  import opened AddressSpace

  const K_SPACE_END: Word := 0x100_0000

  /** `addr_range_t` as far as the loops look at it; kind 1 is ARDS_TYPE_AVAIL. */
  datatype Range = Range(kind: Word, base: Word, length: Word)

  /** The range is used, given the next virtual address to map. */
  predicate Taken(r: Range, va: Word) { r.kind == 1 && Add(r.base, r.length) >= va }

  function First(r: Range, va: Word): nat {
    PageAlign(if r.base < va then va else r.base) / 4096
  }

  function Limit(r: Range): nat { PageOf(Add(r.base, r.length)) / 4096 }

  /** The physical pages taken from one range, in order. */
  function PagesOf(r: Range, va: Word): seq<nat> {
    if Taken(r, va) && First(r, va) < Limit(r)
    then seq(Limit(r) - First(r, va), i requires 0 <= i => First(r, va) + i)
    else []
  }

  function Advance(va: Word, pages: nat): Word { (va + 4096 * pages) % 0x1_0000_0000 }

  /** The physical pages mapped from `va` on. */
  function Mapped(ranges: seq<Range>, va: Word): seq<nat> {
    if ranges == [] then []
    else var ps := PagesOf(ranges[0], va); ps + Mapped(ranges[1..], Advance(va, |ps|))
  }

  predicate NoOverflow(ranges: seq<Range>) {
    forall i :: 0 <= i < |ranges| && ranges[i].kind == 1 ==> ranges[i].base + ranges[i].length < 0x1_0000_0000
  }

  predicate DisjointRanges(ranges: seq<Range>) {
    forall i, j :: 0 <= i < j < |ranges| && ranges[i].kind == 1 && ranges[j].kind == 1 ==>
      || ranges[i].base + ranges[i].length <= ranges[j].base
      || ranges[j].base + ranges[j].length <= ranges[i].base
  }

  /** No available range starts in the last page, where PAGE_ALIGN wraps to 0. */
  predicate NoHighRange(ranges: seq<Range>) {
    forall i :: 0 <= i < |ranges| && ranges[i].kind == 1 ==> ranges[i].base <= 0xFFFF_F000
  }

  /** Page `p` lies wholly inside an available range. */
  predicate Inside(r: Range, p: nat) {
    r.kind == 1 && r.base <= 4096 * p && 4096 * p + 4096 <= r.base + r.length
  }

  predicate InSome(ranges: seq<Range>, p: nat) {
    exists i :: 0 <= i < |ranges| && Inside(ranges[i], p)
  }

  ghost predicate Distinct(ps: seq<nat>) {
    forall i, j :: 0 <= i < j < |ps| ==> ps[i] != ps[j]
  }

  lemma {:induction false} BoundsInside(r: Range, va: Word)
    requires va % 4096 == 0 && r.kind == 1 && r.base + r.length < 0x1_0000_0000 && r.base <= 0xFFFF_F000
    ensures va <= 4096 * First(r, va) && r.base <= 4096 * First(r, va) && 4096 * Limit(r) <= r.base + r.length
  {
    hide PageAlign, PageOf;
    var start := if r.base < va then va else r.base;
    assert start <= 0xFFFF_F000;
    assert PageAlign(start) == 4096 * First(r, va);
    assert PageOf(r.base + r.length) == 4096 * Limit(r);
  }

  /** The pages of one range lie inside it and at or above `va`, and leave `va` in the last page
      at most. */
  lemma {:induction false} PagesInside(r: Range, va: Word)
    requires va % 4096 == 0 && (r.kind == 1 ==> r.base + r.length < 0x1_0000_0000 && r.base <= 0xFFFF_F000)
    ensures va + 4096 * |PagesOf(r, va)| < 0x1_0000_0000
    ensures Advance(va, |PagesOf(r, va)|) == va + 4096 * |PagesOf(r, va)|
    ensures Distinct(PagesOf(r, va))
    ensures forall k :: 0 <= k < |PagesOf(r, va)| ==> Inside(r, PagesOf(r, va)[k]) && va <= 4096 * PagesOf(r, va)[k]
  {
    hide First, Limit, Add;
    if r.kind == 1 { BoundsInside(r, va); }
  }

  lemma {:induction false} MappedInside(ranges: seq<Range>, va: Word)
    requires va % 4096 == 0 && NoOverflow(ranges) && NoHighRange(ranges)
    ensures va + 4096 * |Mapped(ranges, va)| < 0x1_0000_0000
    ensures forall k :: 0 <= k < |Mapped(ranges, va)| ==>
      InSome(ranges, Mapped(ranges, va)[k]) && va <= 4096 * Mapped(ranges, va)[k]
  {
    hide PagesOf, Advance;
    if ranges != [] {
      var r, rest := ranges[0], ranges[1..];
      var ps := PagesOf(r, va);
      PagesInside(r, va);
      var va' := Advance(va, |ps|);
      assert forall i :: 0 <= i < |rest| ==> rest[i] == ranges[i + 1];
      MappedInside(rest, va');
      var qs := Mapped(rest, va');
      forall k | 0 <= k < |ps + qs| ensures InSome(ranges, (ps + qs)[k]) && va <= 4096 * (ps + qs)[k] {
        if k < |ps| {
          assert Inside(ranges[0], ps[k]);
        } else {
          assert InSome(rest, qs[k - |ps|]);
          var i :| 0 <= i < |rest| && Inside(rest[i], qs[k - |ps|]);
          assert Inside(ranges[i + 1], qs[k - |ps|]);
        }
      }
    }
  }

  lemma {:induction false} MappedDistinct(ranges: seq<Range>, va: Word)
    requires va % 4096 == 0 && NoOverflow(ranges) && NoHighRange(ranges) && DisjointRanges(ranges)
    ensures Distinct(Mapped(ranges, va))
  {
    hide PagesOf, Advance;
    if ranges != [] {
      var r, rest := ranges[0], ranges[1..];
      var ps := PagesOf(r, va);
      PagesInside(r, va);
      var va' := Advance(va, |ps|);
      assert forall i :: 0 <= i < |rest| ==> rest[i] == ranges[i + 1];
      MappedInside(rest, va');
      MappedDistinct(rest, va');
      var qs := Mapped(rest, va');
      forall a, b | 0 <= a < |ps| && 0 <= b < |qs| ensures ps[a] != qs[b] {
        assert InSome(rest, qs[b]);
        var i :| 0 <= i < |rest| && Inside(rest[i], qs[b]);
        assert Inside(ranges[0], ps[a]) && Inside(ranges[i + 1], qs[b]);
      }
    }
  }

  /** The memory map lists available ranges by address. */
  predicate Sorted(ranges: seq<Range>) {
    forall i, j :: 0 <= i < j < |ranges| && ranges[i].kind == 1 && ranges[j].kind == 1 ==>
      ranges[i].base + ranges[i].length <= ranges[j].base
  }

  lemma {:induction false} PageBounds(r: Range, va: Word, p: nat)
    requires va % 4096 == 0 && r.kind == 1 && r.base + r.length < 0x1_0000_0000 && r.base <= 0xFFFF_F000
    ensures First(r, va) <= p <==> r.base <= 4096 * p && va <= 4096 * p
    ensures p < Limit(r) <==> 4096 * p + 4096 <= r.base + r.length
  {
    hide PageAlign, PageOf;
    var start := if r.base < va then va else r.base;
    assert PageAlign(start) == 4096 * First(r, va) && PageOf(r.base + r.length) == 4096 * Limit(r);
  }

  /** Exactly the whole pages of the range from `va` on are taken. */
  lemma {:induction false} PagesExact(r: Range, va: Word, p: nat)
    requires va % 4096 == 0 && (r.kind == 1 ==> r.base + r.length < 0x1_0000_0000 && r.base <= 0xFFFF_F000)
    ensures p in PagesOf(r, va) <==> Inside(r, p) && va <= 4096 * p
  {
    if r.kind == 1 {
      PageBounds(r, va, p);
      var ps := PagesOf(r, va);
      if Inside(r, p) && va <= 4096 * p { assert ps[p - First(r, va)] == p; }
      hide First, Limit, Add;
    }
  }

  lemma {:induction false} FirstOrRest(ranges: seq<Range>, p: nat)
    requires ranges != []
    ensures InSome(ranges, p) <==> Inside(ranges[0], p) || InSome(ranges[1..], p)
  {
    var rest := ranges[1..];
    assert forall i :: 0 <= i < |rest| ==> rest[i] == ranges[i + 1];
    if InSome(ranges, p) {
      var i :| 0 <= i < |ranges| && Inside(ranges[i], p);
      assert i > 0 ==> Inside(rest[i - 1], p);
    }
    if InSome(rest, p) {
      var i :| 0 <= i < |rest| && Inside(rest[i], p);
      assert Inside(ranges[i + 1], p);
    }
  }

  /** Mapping a range leaves the virtual address at or below every later range. */
  lemma {:induction false} StaysBelow(r: Range, va: Word, later: Range)
    requires va % 4096 == 0 && (r.kind == 1 ==> r.base + r.length < 0x1_0000_0000 && r.base <= 0xFFFF_F000)
    requires later.kind == 1 && (r.kind == 1 ==> r.base + r.length <= later.base)
    ensures PagesOf(r, va) != [] ==> va + 4096 * |PagesOf(r, va)| <= later.base
  {
    if r.kind == 1 {
      BoundsInside(r, va);
      hide First, Limit, Add;
    }
  }

  /** Main result on what is left out: with the ranges in order, exactly the whole pages of available
      memory from `va` on are mapped. */
  lemma {:induction false} MappedExact(ranges: seq<Range>, va: Word, p: nat)
    requires va % 4096 == 0 && NoOverflow(ranges) && NoHighRange(ranges) && Sorted(ranges)
    ensures p in Mapped(ranges, va) <==> InSome(ranges, p) && va <= 4096 * p
  {
    hide PagesOf, Advance;
    if ranges != [] {
      var r, rest := ranges[0], ranges[1..];
      var ps := PagesOf(r, va);
      PagesInside(r, va);
      PagesExact(r, va, p);
      var va' := Advance(va, |ps|);
      assert forall i :: 0 <= i < |rest| ==> rest[i] == ranges[i + 1];
      MappedExact(rest, va', p);
      FirstOrRest(ranges, p);
      if InSome(rest, p) && va <= 4096 * p {
        var i :| 0 <= i < |rest| && Inside(rest[i], p);
        StaysBelow(r, va, rest[i]);
      }
    }
  }

  lemma {:induction false} TwoRanges(r0: Range, r1: Range, va: Word)
    ensures Mapped([r0, r1], va) == PagesOf(r0, va) + PagesOf(r1, Advance(va, |PagesOf(r0, va)|))
  {
    hide PagesOf, Advance;
    assert [r0, r1][1..] == [r1] && [r1][1..] == [];
    var va' := Advance(va, |PagesOf(r0, va)|);
    assert Mapped([r1], va') == PagesOf(r1, va') + [];
  }

  /** Two ranges out of order: the lower one, listed second, is left out altogether. */
  lemma {:induction false} OutOfOrderSkips()
    ensures var ranges := [Range(1, 0x200_0000, 0x200_0000), Range(1, 0x100_0000, 0x100_0000)];
      && NoOverflow(ranges) && DisjointRanges(ranges) && NoHighRange(ranges)
      && InSome(ranges, 0x1000) && 0x1000 !in Mapped(ranges, K_SPACE_END)
  {
    hide PagesOf, Mapped, Advance;
    var r0, r1 := Range(1, 0x200_0000, 0x200_0000), Range(1, 0x100_0000, 0x100_0000);
    assert Inside([r0, r1][1], 0x1000);
    TwoRanges(r0, r1, K_SPACE_END);
    var va := Advance(K_SPACE_END, |PagesOf(r0, K_SPACE_END)|);
    PagesExact(r0, K_SPACE_END, 0x1000);
    PagesInside(r0, K_SPACE_END);
    PagesExact(r0, K_SPACE_END, 0x2000);
    assert PagesOf(r0, K_SPACE_END) != [];
    PagesExact(r1, va, 0x1000);
  }

  /** A range that starts in the last page is mapped from physical page 0 up. */
  lemma {:induction false} HighRangeStartsAtZero(r: Range, va: Word)
    requires r.kind == 1 && r.base > 0xFFFF_F000 && r.base + r.length < 0x1_0000_0000 && va <= 0xFFFF_F000
    ensures |PagesOf(r, va)| == 0xF_FFFF && PagesOf(r, va)[0] == 0
  {
    assert First(r, va) == 0;
    assert PageOf(r.base + r.length) == 0xFFFF_F000;
  }

  lemma {:induction false} HighRangeRemapsPageZero(ranges: seq<Range>, va: Word)
    requires va % 4096 == 0 && NoOverflow(ranges) && !NoHighRange(ranges)
    ensures 0 in Mapped(ranges, va) && |Mapped(ranges, va)| >= 0xF_FFFF
  {
    hide PagesOf, Advance;
    var r, rest := ranges[0], ranges[1..];
    var ps := PagesOf(r, va);
    assert forall i :: 0 <= i < |rest| ==> rest[i] == ranges[i + 1];
    if r.kind == 1 && r.base > 0xFFFF_F000 {
      HighRangeStartsAtZero(r, va);
      assert (ps + Mapped(rest, Advance(va, |ps|)))[0] == 0;
    } else {
      PagesInside(r, va);
      HighRangeRemapsPageZero(rest, Advance(va, |ps|));
    }
  }

  /** Main result on what the loops map: with disjoint ranges whose ends do not overflow, the pages
      are distinct and all above the kernel space exactly when no available range starts in the
      last page. */
  lemma {:induction false} MappedIsInjectiveIff(ranges: seq<Range>, va: Word)
    requires va % 4096 == 0 && va >= K_SPACE_END && NoOverflow(ranges) && DisjointRanges(ranges)
    ensures
      (&& Distinct(Mapped(ranges, va))
       && forall k :: 0 <= k < |Mapped(ranges, va)| ==> 4096 <= Mapped(ranges, va)[k])
      <==> NoHighRange(ranges)
  {
    if NoHighRange(ranges) {
      MappedDistinct(ranges, va);
      MappedInside(ranges, va);
    } else {
      HighRangeRemapsPageZero(ranges, va);
    }
  }

  // ------------------------------------------------------------------------- the flat map

  function BootPage(pages: seq<nat>, v: nat): nat
    requires v < 4096 + |pages|
  {
    if v < 4096 then v else pages[v - 4096]
  }

  /** The kernel space mapped to itself and `pages` mapped from K_SPACE_END up. */
  function BootFlat(pages: seq<nat>): map<nat, nat> {
    map v: nat | v < 4096 + |pages| :: BootPage(pages, v)
  }

  ghost predicate Injective(m: map<nat, nat>) {
    forall v, w :: v in m && w in m && m[v] == m[w] ==> v == w
  }

  lemma {:induction false} BootFlatInjective(ranges: seq<Range>)
    requires NoOverflow(ranges) && DisjointRanges(ranges) && NoHighRange(ranges)
    ensures Injective(BootFlat(Mapped(ranges, K_SPACE_END)))
  {
    MappedIsInjectiveIff(ranges, K_SPACE_END);
    var pages := Mapped(ranges, K_SPACE_END);
    var m := BootFlat(pages);
    forall v, w | v in m && w in m && v < w ensures m[v] != m[w] {
      assert v >= 4096 ==> pages[v - 4096] != pages[w - 4096];
    }
  }

  // ---------------------------------------------------------------------------- the loops

  /** A new table with the given entries, at a page not in use. */
  function AddFilled(t: Tables, pd: nat, frame: Word, entries: seq<Word>): Tables
    requires PageTables.Shaped(t) && pd < 1024
  {
    Tables(t.dir[pd := Entry(frame)], t.mem[frame := entries])
  }

  lemma {:induction false} AddFilledTranslates(t: Tables, pd: nat, frame: Word, entries: seq<Word>, v: nat)
    requires Ok(t) && pd < 1024 && t.dir[pd] == 0 && v < PAGES
    requires frame % 4096 == 0 && !InUse(t, frame) && |entries| == 1024
    ensures Ok(AddFilled(t, pd, frame, entries))
    ensures Translate(AddFilled(t, pd, frame, entries), v) ==
      if v / 1024 != pd then Translate(t, v)
      else if entries[v % 1024] % 2 == 0 then None else Some(entries[v % 1024] / 4096)
    ensures Access(AddFilled(t, pd, frame, entries), v) ==
      if v / 1024 != pd then Access(t, v)
      else if entries[v % 1024] % 2 == 0 then None else Some(RightsOf(entries[v % 1024]))
  {
    AllBits(Entry(frame));
    hide PageOf, Entry, RightsOf;
    var r := AddFilled(t, pd, frame, entries);
    assert PageOf(r.dir[pd]) == frame;
    assert forall i :: 0 <= i < 1024 && t.dir[i] != 0 ==> PageOf(t.dir[i]) != frame;
  }

  /** The entry for physical page `p`, with every right. */
  predicate SelfEntry(e: Word, p: nat) { e == 4096 * p + 7 }

  lemma {:induction false} SelfEntryMeans(e: Word, p: nat)
    requires SelfEntry(e, p)
    ensures e % 2 == 1 && e / 4096 == p && RightsOf(e) == Rights(true, true)
  {
    assert e == 8 * (512 * p) + 7 && e == 2 * (2048 * p + 3) + 1;
    Eighth(512 * p);
    Halve(2048 * p + 3);
    AllBits(e);
  }

  lemma {:induction false} PageNumbers(k: nat, x: nat)
    requires x == 4096 * k
    ensures x / 4096 == k && x % 4096 == 0
  {
  }

  lemma {:induction false} TablePlace(m: nat, i: nat)
    requires i < 1024
    ensures (1024 * m + i) % 1024 == i
  {
  }

  lemma {:induction false} EntryAt(start: Word, i: nat, p: Word)
    requires start % 0x40_0000 == 0 && i < 1024 && p == start + 4096 * i
    ensures PteIndex(p) == i && SelfEntry(Entry(p), start / 4096 + i)
  {
    hide PteIndex, Entry;
    var m := start / 0x40_0000;
    PageNumbers(1024 * m, start);
    PageNumbers(1024 * m + i, p);
    TablePlace(m, i);
    EntryGrants(p);
  }

  /** The inner loop for the kernel space: one table of pages mapped to themselves from `start`. */
  method IdentityEntries(start: Word) returns (entries: seq<Word>, p: Word)
    requires start % 0x40_0000 == 0 && start < K_SPACE_END
    ensures |entries| == 1024 && p == start + 0x40_0000
    ensures forall j :: 0 <= j < 1024 ==> SelfEntry(entries[j], start / 4096 + j)
  {
    hide PteIndex, Entry;
    entries, p := Zeros(), start;
    var i := start / 4096 % 1024;
    assert i == 0;
    while i < 1024
      invariant 0 <= i <= 1024 && |entries| == 1024 && p == start + 4096 * i
      invariant forall j :: 0 <= j < i ==> SelfEntry(entries[j], start / 4096 + j)
    {
      EntryAt(start, i, p);
      entries := entries[PteIndex(p) := Entry(p)];
      p := p + 4096;
      i := i + 1;
    }
  }

  /** Every mapped page may be written to and reached in user mode. */
  ghost predicate AllOpen(t: Tables)
    requires PageTables.Shaped(t)
  {
    forall v: nat :: v < PAGES && Translate(t, v).Some? ==> Access(t, v) == Some(Rights(true, true))
  }

  /** The first `k` tables map their pages to themselves, with every right, and nothing else is
      mapped. */
  ghost predicate IdentityUpTo(t: Tables, k: nat) {
    && Ok(t) && k <= 1024 && !InUse(t, 0) && AllOpen(t)
    && (forall i :: 0 <= i < 1024 ==> (t.dir[i] != 0 <==> i < k))
    && (forall v: nat :: v < PAGES ==> Translate(t, v) == if v < 1024 * k then Some(v) else None)
  }

  lemma {:induction false} FilledEntries(t: Tables, k: nat, frame: Word, entries: seq<Word>)
    requires PageTables.Shaped(t) && !InUse(t, 0) && k < 1024 && frame % 4096 == 0 && frame != 0
    ensures var r := AddFilled(t, k, frame, entries);
      !InUse(r, 0) && |r.dir| == 1024 && r.dir[k] != 0 && forall i :: 0 <= i < 1024 && i != k ==> r.dir[i] == t.dir[i]
  {
    hide PageOf, Entry;
    var r := AddFilled(t, k, frame, entries);
    assert forall i :: 0 <= i < 1024 && i != k ==> r.dir[i] == t.dir[i];
    assert PageOf(r.dir[k]) == frame;
  }

  /** Which pages a table holds. */
  lemma {:induction false} InTable(v: nat, k: nat)
    ensures v == 1024 * (v / 1024) + v % 1024 && v % 1024 < 1024
    ensures v / 1024 == k <==> 1024 * k <= v < 1024 * (k + 1)
  {
  }

  lemma {:induction false} IdentityGrows(t: Tables, k: nat, frame: Word, entries: seq<Word>)
    requires IdentityUpTo(t, k) && k < 1024 && |entries| == 1024
    requires frame % 4096 == 0 && frame != 0 && !InUse(t, frame)
    requires forall j :: 0 <= j < 1024 ==> SelfEntry(entries[j], 1024 * k + j)
    ensures IdentityUpTo(AddFilled(t, k, frame, entries), k + 1)
  {
    var r := AddFilled(t, k, frame, entries);
    FilledEntries(t, k, frame, entries);
    hide Translate, Access, AddFilled, InUse, Ok, SelfEntry, RightsOf;
    AddFilledTranslates(t, k, frame, entries, 0);
    forall v: nat | v < PAGES
      ensures Translate(r, v) == if v < 1024 * (k + 1) then Some(v) else None
      ensures Translate(r, v).Some? ==> Access(r, v) == Some(Rights(true, true))
    {
      AddFilledTranslates(t, k, frame, entries, v);
      InTable(v, k);
      SelfEntryMeans(entries[v % 1024], 1024 * k + v % 1024);
    }
  }

  lemma {:induction false} IdentityIsOk(t: Tables, k: nat)
    requires IdentityUpTo(t, k)
    ensures Ok(t) && |t.dir| == 1024
  {
  }

  lemma {:induction false} AddFilledIs(t: Tables, pd: nat, frame: Word, entries: seq<Word>)
    requires PageTables.Shaped(t) && pd < 1024
    ensures AddFilled(t, pd, frame, entries) == Tables(t.dir[pd := Entry(frame)], t.mem[frame := entries])
  {
  }

  lemma {:induction false} TableStart(p: Word, k: nat)
    requires p == 0x40_0000 * k && k < 4
    ensures PdeIndex(p) == k && p % 0x40_0000 == 0 && p / 4096 == 1024 * k && p < K_SPACE_END
  {
    hide PdeIndex;
  }

  /** One pass of the outer loop for the kernel space, at table `k`; no free frame is a PANIC. */
  method AddIdentityTable(s: Space, p: Word, ghost k: nat) returns (ok: bool, next: Word)
    requires s.Valid() && p == 0x40_0000 * k && k < 4 && IdentityUpTo(s.Abs(), k)
    modifies s, s.mm, s.mm.meta
    ensures ok <==> old(s.mm.nfree) > 0
    ensures s.mm.meta == old(s.mm.meta)
    ensures ok ==> s.Valid() && IdentityUpTo(s.Abs(), k + 1)
    ensures ok ==> next == p + 0x40_0000 && s.mm.nfree == old(s.mm.nfree) - 1
  {
    ghost var t := s.Abs();
    TableStart(p, k);
    hide OwnedIn, PageOf, Entry, Zeros, FrameTable.Sound, PdeIndex, IdentityUpTo, AddFilled, Ok;
    IdentityIsOk(t, k);
    assert PageTables.Shaped(t) by { OkIsShaped(t); }
    var frame := s.NewFrame();
    if frame.None? { return false, p; }
    s.dir := s.dir[PdeIndex(p) := Entry(frame.value)];
    var entries, q := IdentityEntries(p);
    s.mem := s.mem[frame.value := entries];
    AddFilledIs(t, k, frame.value, entries);
    IdentityGrows(t, k, frame.value, entries);
    IdentityIsOk(s.Abs(), k + 1);
    return true, q;
  }

  /** The loop for the kernel space. */
  method MapKernelSpace(s: Space) returns (ok: bool)
    requires s.Valid() && IdentityUpTo(s.Abs(), 0)
    modifies s, s.mm, s.mm.meta
    ensures ok <==> old(s.mm.nfree) >= 4
    ensures s.mm.meta == old(s.mm.meta)
    ensures ok ==> s.Valid() && IdentityUpTo(s.Abs(), 4) && s.mm.nfree == old(s.mm.nfree) - 4
  {
    hide IdentityUpTo, Ok, FrameTable.Sound;
    var p: Word, k := 0, 0;
    ok := true;
    while p < K_SPACE_END
      invariant ok && s.Valid() && s.mm.meta == old(s.mm.meta)
      invariant 0 <= k <= 4 && p == 0x40_0000 * k && IdentityUpTo(s.Abs(), k)
      invariant s.mm.nfree == old(s.mm.nfree) - k
    {
      ok, p := AddIdentityTable(s, p, k);
      if !ok { return; }
      k := k + 1;
    }
  }

  // ------------------------------------------------------------------------ the second loop

  /** The virtual page `k` places after `v`, and its directory entry. */
  function PageAfter(v: nat, k: nat): nat { (v + k) % PAGES }
  function Row(v: nat, k: nat): nat { PageAfter(v, k) / 1024 }

  /** The flat map `m` after mapping `pages` at consecutive virtual pages from `v` on, the numbers
      wrapping at the end of the address space. */
  function Placed(m: map<nat, nat>, v: nat, pages: seq<nat>): map<nat, nat> {
    if pages == [] then m
    else
      var k := |pages| - 1;
      Placed(m, v, pages[..k])[PageAfter(v, k) := pages[k]]
  }

  /** The directory entries of `n` consecutive virtual pages from `v` on. */
  ghost function Rows(v: nat, n: nat): set<nat> {
    if n == 0 then {} else Rows(v, n - 1) + {Row(v, n - 1)}
  }

  ghost function Present(dir: seq<Word>): set<nat> { set i: nat | i < |dir| && dir[i] != 0 }

  /** Tables the first `n` pages need beyond those in `rows`. */
  ghost function Added(v: nat, n: nat, rows: set<nat>): set<nat> { Rows(v, n) - rows }

  lemma {:induction false} AddedGrows(v: nat, n: nat, rows: set<nat>)
    ensures var r, a := Row(v, n), Added(v, n, rows);
      && Added(v, n + 1, rows) == (if r in rows then a else a + {r})
      && rows + Added(v, n + 1, rows) == rows + a + {r}
      && |Added(v, n + 1, rows)| == if r in rows + a then |a| else |a| + 1
  {
    hide Row;
    var r, a := Row(v, n), Added(v, n, rows);
    assert Added(v, n + 1, rows) == if r in rows then a else a + {r};
    assert r in a ==> a + {r} == a;
  }

  lemma {:induction false} PresentGrows(dir: seq<Word>, dir': seq<Word>, r: nat)
    requires |dir| == |dir'| && r < |dir| && dir'[r] != 0 && forall i :: 0 <= i < |dir| && i != r ==> dir'[i] == dir[i]
    ensures Present(dir') == Present(dir) + {r} && (r in Present(dir) <==> dir[r] != 0)
  {
  }

  lemma {:induction false} StaysOpen(t: Tables, t': Tables, w: nat)
    requires PageTables.Shaped(t) && PageTables.Shaped(t') && AllOpen(t) && OnlyGrants(t, t', w)
    ensures AllOpen(t')
  {
  }

  /** Where the second loop stands after mapping `done` from virtual page `v` on, having started
      with `frames` free frames, tables `rows` and the flat map `m`. As long as at most one table too
      many was needed, the tables stand for the map they should; page 0 serves for the one. */
  ghost predicate BootState(
      t: Tables, nfree: nat, frames: nat, rows: set<nat>, m: map<nat, nat>, v: nat, done: seq<nat>) {
    var added := Added(v, |done|, rows);
    && PageTables.Shaped(t)
    && (Ok(t) <==> |added| <= frames + 1)
    && (Ok(t) ==>
          && Flat(t) == Placed(m, v, done) && Present(t.dir) == rows + added && AllOpen(t)
          && nfree == (if |added| <= frames then frames - |added| else 0)
          && (InUse(t, 0) <==> |added| == frames + 1))
  }

  /** What `PageMap` promises of the tables when it maps physical page `p` at virtual page `w`. */
  ghost predicate Mapped1(t: Tables, nfree: nat, w: nat, p: nat, t': Tables, nfree': nat) {
    && PageTables.Shaped(t) && PageTables.Shaped(t') && w < PAGES
    && var r := w / 1024;
    && (!Ok(t) ==> !Ok(t'))
    && (Ok(t) ==> (Ok(t') <==> t.dir[r] != 0 || nfree > 0 || !InUse(t, 0)))
    && (Ok(t) && Ok(t') ==> Flat(t') == Flat(t)[w := p] && OnlyGrants(t, t', w))
    && nfree' == (if t.dir[r] == 0 && nfree > 0 then nfree - 1 else nfree)
    && (forall i :: 0 <= i < 1024 && i != r ==> t'.dir[i] == t.dir[i]) && t'.dir[r] != 0
    && (InUse(t', 0) <==> InUse(t, 0) || (t.dir[r] == 0 && nfree == 0))
  }

  /** The bookkeeping of frames: `n` tables added so far, one more or not. */
  lemma {:induction false} FramesLeft(
      frames: nat, n: nat, n': nat, ok: bool, ok': bool, nfree: nat, nfree': nat, used: bool, used': bool, there: bool)
    requires (ok <==> n <= frames + 1) && n <= n'
    requires ok ==> n' == (if there then n else n + 1)
    requires ok ==> nfree == (if n <= frames then frames - n else 0) && (used <==> n == frames + 1)
    requires (!ok ==> !ok') && (ok ==> (ok' <==> there || nfree > 0 || !used))
    requires nfree' == if !there && nfree > 0 then nfree - 1 else nfree
    requires used' <==> used || (!there && nfree == 0)
    ensures ok' <==> n' <= frames + 1
    ensures ok' ==> nfree' == (if n' <= frames then frames - n' else 0) && (used' <==> n' == frames + 1)
  {
  }

  lemma {:induction false} RowIs(v: nat, k: nat, t: Tables, t': Tables)
    requires PageTables.Shaped(t) && PageTables.Shaped(t')
    ensures Row(v, k) == PageAfter(v, k) / 1024 && Row(v, k) < 1024 && |t.dir| == |t'.dir| == 1024
  {
  }

  lemma {:induction false} PlacedGrows(m: map<nat, nat>, v: nat, done: seq<nat>, p: nat)
    ensures Placed(m, v, done + [p]) == Placed(m, v, done)[PageAfter(v, |done|) := p]
  {
    assert (done + [p])[..|done|] == done;
  }

  lemma {:induction false} BootStep(
      t: Tables, nfree: nat, frames: nat, rows: set<nat>, m: map<nat, nat>, v: nat, done: seq<nat>,
      t': Tables, nfree': nat, p: nat)
    requires BootState(t, nfree, frames, rows, m, v, done)
    requires Mapped1(t, nfree, PageAfter(v, |done|), p, t', nfree')
    ensures BootState(t', nfree', frames, rows, m, v, done + [p])
  {
    hide Ok, PageTables.Shaped, InUse, Flat, Placed, Added, Present, Row, PageAfter, AllOpen, OnlyGrants;
    if Ok(t) && Ok(t') { StaysOpen(t, t', PageAfter(v, |done|)); }
    var r, a, a' := Row(v, |done|), Added(v, |done|, rows), Added(v, |done| + 1, rows);
    RowIs(v, |done|, t, t');
    AddedGrows(v, |done|, rows);
    PresentGrows(t.dir, t'.dir, r);
    PlacedGrows(m, v, done, p);
    FramesLeft(frames, |a|, |a'|, Ok(t), Ok(t'), nfree, nfree', InUse(t, 0), InUse(t', 0), t.dir[r] != 0);
  }

  /** The tables and the flat map that the first loop leaves. */
  ghost function KernelRows(): set<nat> { {0, 1, 2, 3} }
  function KernelFlat(): map<nat, nat> { BootFlat([]) }

  /** The second loop after mapping `done`, having started with `frames` free frames. */
  ghost predicate Booted(t: Tables, nfree: nat, frames: nat, done: seq<nat>) {
    BootState(t, nfree, frames, KernelRows(), KernelFlat(), 4096, done)
  }

  lemma {:induction false} IdentityIsBooted(t: Tables, nfree: nat)
    requires IdentityUpTo(t, 4)
    ensures Booted(t, nfree, nfree, [])
  {
    assert Flat(t) == KernelFlat() by { FlatIff(t, KernelFlat()); }
    assert Present(t.dir) == KernelRows();
    assert Added(4096, 0, KernelRows()) == {};
  }

  lemma {:induction false} AddressIs(va: Word, w: nat)
    requires va == 4096 * w
    ensures w < PAGES && va / 4096 == w && PdeIndex(va) == w / 1024
  {
  }

  lemma {:induction false} StartIs()
    ensures K_SPACE_END == 4096 * PageAfter(4096, 0)
  {
  }

  lemma {:induction false} NextAddress(va: Word, k: nat)
    requires va == 4096 * PageAfter(4096, k)
    ensures Add(va, 4096) == 4096 * PageAfter(4096, k + 1)
  {
  }

  lemma {:induction false} AdvanceStep(va: Word, n: nat)
    ensures Advance(va, 0) == va && (n > 0 ==> Advance(va, n) == Add(Advance(va, n - 1), 4096))
  {
  }

  lemma {:induction false} AdvanceIs(va: Word, k: nat, n: nat)
    requires va == 4096 * PageAfter(4096, k)
    ensures Advance(va, n) == 4096 * PageAfter(4096, k + n)
  {
    hide Advance, PageAfter;
    AdvanceStep(va, n);
    if n > 0 {
      AdvanceIs(va, k, n - 1);
      NextAddress(Advance(va, n - 1), k + n - 1);
    }
  }

  lemma {:induction false} BootedStep(
      t: Tables, nfree: nat, frames: nat, done: seq<nat>, t': Tables, nfree': nat, p: nat)
    requires Booted(t, nfree, frames, done) && Mapped1(t, nfree, PageAfter(4096, |done|), p, t', nfree')
    ensures Booted(t', nfree', frames, done + [p])
  {
    hide BootState, Mapped1;
    BootStep(t, nfree, frames, KernelRows(), KernelFlat(), 4096, done, t', nfree', p);
  }

  /** One pass of the inner loop. */
  method MapNext(s: Space, va: Word, p: Word, ghost frames: nat, ghost done: seq<nat>)
    requires s.Usable() && Booted(s.Abs(), s.mm.nfree, frames, done) && va == 4096 * PageAfter(4096, |done|)
    modifies s, s.mm, s.mm.meta
    ensures s.Usable() && s.mm.meta == old(s.mm.meta)
    ensures Booted(s.Abs(), s.mm.nfree, frames, done + [p / 4096])
  {
    hide FrameTable.Sound, Ok, PageTables.Shaped, InUse, Flat, Booted, PageAfter, PdeIndex, OnlyGrants;
    ghost var t, n := s.Abs(), s.mm.nfree;
    AddressIs(va, PageAfter(4096, |done|));
    var status := s.PageMap(va, p);
    BootedStep(t, n, frames, done, s.Abs(), s.mm.nfree, p / 4096);
  }

  /** The pages of a range by the addresses the inner loop runs over. */
  lemma {:induction false} PagesByAddress(r: Range, va: Word, p: Word, end: Word)
    requires p == PageAlign(if r.base < va then va else r.base) && end == PageOf(Add(r.base, r.length))
    ensures !Taken(r, va) ==> PagesOf(r, va) == []
    ensures p % 4096 == 0 && end % 4096 == 0 && end <= 0xFFFF_F000
    ensures Taken(r, va) ==> |PagesOf(r, va)| == if p < end then (end - p) / 4096 else 0
    ensures forall k :: 0 <= k < |PagesOf(r, va)| ==> PagesOf(r, va)[k] == p / 4096 + k
  {
    assert p == 4096 * First(r, va) && end == 4096 * Limit(r);
    hide First, Limit, Taken, PageAlign, PageOf;
  }

  /** The loop over the pages of one range. */
  method MapRange(s: Space, r: Range, va: Word, ghost frames: nat, ghost done: seq<nat>) returns (next: Word)
    requires s.Usable() && Booted(s.Abs(), s.mm.nfree, frames, done) && va == 4096 * PageAfter(4096, |done|)
    modifies s, s.mm, s.mm.meta
    ensures s.Usable() && s.mm.meta == old(s.mm.meta)
    ensures Booted(s.Abs(), s.mm.nfree, frames, done + PagesOf(r, va))
    ensures next == Advance(va, |PagesOf(r, va)|)
  {
    hide FrameTable.Sound, PageTables.Shaped, Booted, PagesOf, PageAlign, PageOf, Advance, PageAfter;
    ghost var ps := PagesOf(r, va);
    var p, end := PageAlign(if r.base < va then va else r.base), PageOf(Add(r.base, r.length));
    PagesByAddress(r, va, p, end);
    AdvanceIs(va, |done|, |ps|);
    assert done + [] == done;
    next := va;
    if !(r.kind == 1 && Add(r.base, r.length) >= va) { return; }
    ghost var first, k := p / 4096, 0;
    while p < end
      invariant s.Usable() && s.mm.meta == old(s.mm.meta)
      invariant k <= |ps| && p == 4096 * (first + k) && (p < end <==> k < |ps|)
      invariant next == 4096 * PageAfter(4096, |done| + k)
      invariant Booted(s.Abs(), s.mm.nfree, frames, done + ps[..k])
    {
      assert (done + ps[..k]) + [p / 4096] == done + ps[..k + 1];
      MapNext(s, next, p, frames, done + ps[..k]);
      NextAddress(next, |done| + k);
      p := Add(p, 4096);
      next := Add(next, 4096);
      k := k + 1;
    }
    assert ps[..k] == ps;
  }

  lemma {:induction false} MappedUnfolds(ranges: seq<Range>, i: nat, va: Word)
    requires i <= |ranges|
    ensures i == |ranges| ==> Mapped(ranges[i..], va) == []
    ensures i < |ranges| ==>
      var ps := PagesOf(ranges[i], va);
      Mapped(ranges[i..], va) == ps + Mapped(ranges[i + 1..], Advance(va, |ps|))
  {
    if i < |ranges| { assert ranges[i..][1..] == ranges[i + 1..]; }
  }

  /** The loop over the memory map, whatever it holds. */
  method MapRanges(s: Space, ranges: seq<Range>) returns (va: Word)
    requires s.Usable() && Booted(s.Abs(), s.mm.nfree, s.mm.nfree, [])
    modifies s, s.mm, s.mm.meta
    ensures s.Usable() && s.mm.meta == old(s.mm.meta)
    ensures Booted(s.Abs(), s.mm.nfree, old(s.mm.nfree), Mapped(ranges, K_SPACE_END))
    ensures va == Advance(K_SPACE_END, |Mapped(ranges, K_SPACE_END)|)
  {
    hide FrameTable.Sound, PageTables.Shaped, Booted, PagesOf, Advance, PageAfter, Mapped;
    ghost var frames, done: seq<nat> := s.mm.nfree, [];
    ghost var all := Mapped(ranges, K_SPACE_END);
    va := K_SPACE_END;
    StartIs();
    AdvanceIs(va, 0, |all|);
    var i := 0;
    assert ranges[0..] == ranges;
    while i < |ranges|
      invariant i <= |ranges| && s.Usable() && s.mm.meta == old(s.mm.meta)
      invariant va == 4096 * PageAfter(4096, |done|) && all == done + Mapped(ranges[i..], va)
      invariant Booted(s.Abs(), s.mm.nfree, frames, done)
    {
      ghost var ps := PagesOf(ranges[i], va);
      MappedUnfolds(ranges, i, va);
      AdvanceIs(va, |done|, |ps|);
      va := MapRange(s, ranges[i], va, frames, done);
      done := done + ps;
      i := i + 1;
    }
    MappedUnfolds(ranges, i, va);
    assert done == all;
  }

  // ------------------------------------------------------------------------- the main result

  /** Tables for `n` pages above the kernel space. */
  function TablesFor(n: nat): nat { (n + 1023) / 1024 }

  /** The next page needs the first table not there yet, or none. */
  lemma {:induction false} TablesGrow(n: nat)
    requires 4096 + n < PAGES
    ensures var r, k, k' := Row(4096, n), TablesFor(n), TablesFor(n + 1);
      (r < 4 + k && k' == k) || (r == 4 + k && k' == k + 1)
  {
    assert Row(4096, n) == 4 + n / 1024;
  }

  /** The kernel's rows and the next `k`. */
  ghost predicate FirstRows(s: set<nat>, k: nat) { forall i: nat :: i in s <==> i < 4 + k }

  lemma {:induction false} NextRow(s: set<nat>, s': set<nat>, r: nat, k: nat, k': nat)
    requires s' == s + {r} && ((r < 4 + k && k' == k) || (r == 4 + k && k' == k + 1))
    requires FirstRows(s, k)
    ensures FirstRows(s', k')
    ensures r in s <==> k' == k
  {
  }

  lemma {:induction false} NothingAdded()
    ensures Added(4096, 0, KernelRows()) == {} && TablesFor(0) == 0
    ensures FirstRows(KernelRows() + Added(4096, 0, KernelRows()), 0)
  {
  }

  lemma {:induction false} AddedCount(n: nat)
    requires 4096 + n <= PAGES
    ensures |Added(4096, n, KernelRows())| == TablesFor(n)
    ensures FirstRows(KernelRows() + Added(4096, n, KernelRows()), TablesFor(n))
  {
    hide Added, Row, TablesFor, KernelRows, FirstRows;
    if n == 0 {
      NothingAdded();
    } else {
      var rows := KernelRows();
      var r, a, a' := Row(4096, n - 1), Added(4096, n - 1, rows), Added(4096, n, rows);
      AddedCount(n - 1);
      AddedGrows(4096, n - 1, rows);
      TablesGrow(n - 1);
      NextRow(rows + a, rows + a', r, TablesFor(n - 1), TablesFor(n));
    }
  }

  lemma {:induction false} PlacedIsBootFlat(pages: seq<nat>)
    requires 4096 + |pages| <= PAGES
    ensures Placed(KernelFlat(), 4096, pages) == BootFlat(pages)
  {
    if pages != [] {
      var k := |pages| - 1;
      PlacedIsBootFlat(pages[..k]);
      assert PageAfter(4096, k) == 4096 + k;
      var m := BootFlat(pages[..k])[4096 + k := pages[k]];
      forall v: nat | v < 4096 + |pages| ensures v in m && m[v] == BootPage(pages, v) { }
    }
  }

  /** Mapped pages stay below the last page, whatever the ranges. */
  lemma {:induction false} MappedBelow(ranges: seq<Range>, va: Word)
    ensures forall k :: 0 <= k < |Mapped(ranges, va)| ==> Mapped(ranges, va)[k] < 0xF_FFFF
  {
    if ranges != [] {
      var ps := PagesOf(ranges[0], va);
      MappedBelow(ranges[1..], Advance(va, |ps|));
      assert Limit(ranges[0]) <= 0xF_FFFF;
      hide First, Limit, Advance;
    }
  }

  lemma {:induction false} PlacedFills(pages: seq<nat>, w: nat)
    requires w < 4096 + |pages| && w < PAGES && forall k :: 0 <= k < |pages| ==> pages[k] < 0xF_FFFF
    ensures var m := Placed(KernelFlat(), 4096, pages); w in m && m[w] < 0xF_FFFF
  {
    if pages == [] {
      assert BootPage([], w) == w;
    } else {
      var k := |pages| - 1;
      if w != PageAfter(4096, k) { PlacedFills(pages[..k], w); }
    }
  }

  lemma {:induction false} BoundedSet(s: set<nat>, n: nat)
    requires forall x :: x in s ==> x < n
    ensures |s| <= n
  {
    if n > 0 {
      BoundedSet(s - {n - 1}, n - 1);
    } else {
      assert s == {};
    }
  }

  ghost function Image(m: map<nat, nat>, n: nat): (s: set<nat>)
    requires Injective(m) && forall v: nat :: v < n ==> v in m
    ensures |s| == n && forall x :: x in s <==> exists v: nat :: v < n && m[v] == x
  {
    if n == 0 then {} else Image(m, n - 1) + {m[n - 1]}
  }

  /** No map of `n + 1` pages into `n` is injective. */
  lemma {:induction false} Pigeonhole(m: map<nat, nat>, n: nat)
    requires forall v: nat :: v <= n ==> v in m && m[v] < n
    ensures !Injective(m)
  {
    if Injective(m) {
      var image := Image(m, n + 1);
      BoundedSet(image, n);
    }
  }

  /** Main result on what the loops leave: with disjoint ranges whose ends do not overflow, the flat
      map has no physical page twice exactly when no available range starts in the last page. */
  lemma {:induction false} BootIsInjectiveIff(ranges: seq<Range>)
    requires NoOverflow(ranges) && DisjointRanges(ranges)
    ensures Injective(Placed(KernelFlat(), 4096, Mapped(ranges, K_SPACE_END))) <==> NoHighRange(ranges)
  {
    var pages := Mapped(ranges, K_SPACE_END);
    var m := Placed(KernelFlat(), 4096, pages);
    if NoHighRange(ranges) {
      MappedInside(ranges, K_SPACE_END);
      PlacedIsBootFlat(pages);
      BootFlatInjective(ranges);
    } else {
      HighRangeRemapsPageZero(ranges, K_SPACE_END);
      MappedBelow(ranges, K_SPACE_END);
      forall v: nat | v <= 0xF_FFFF ensures v in m && m[v] < 0xF_FFFF { PlacedFills(pages, v); }
      Pigeonhole(m, 0xF_FFFF);
    }
  }

  lemma {:induction false} BootFlatMeans(ranges: seq<Range>, pages: seq<nat>)
    requires forall k :: 0 <= k < |pages| ==> InSome(ranges, pages[k])
    ensures forall v :: 0 <= v < 4096 ==> v in BootFlat(pages) && BootFlat(pages)[v] == v
    ensures forall p :: p in BootFlat(pages).Values ==> p < 4096 || InSome(ranges, p)
  {
    hide InSome;
    var m := BootFlat(pages);
    forall p | p in m.Values ensures p < 4096 || InSome(ranges, p) {
      var v :| v in m && m[v] == p;
      assert p == BootPage(pages, v);
    }
  }

  /** With the ranges as the kernel assumes them, `m` maps kernel space to itself and pages of the
      ranges after it without a gap, and no physical page twice. */
  ghost predicate GoodMap(m: map<nat, nat>, ranges: seq<Range>) {
    && m == BootFlat(Mapped(ranges, K_SPACE_END)) && Injective(m)
    && (forall v :: 0 <= v < 4096 ==> v in m && m[v] == v)
    && (forall p :: p in m.Values ==> p < 4096 || InSome(ranges, p))
  }

  /** With the ranges in order too, the pages mapped are kernel space and all of available memory. */
  ghost predicate WholeMemory(m: map<nat, nat>, ranges: seq<Range>) {
    forall p: nat :: p in m.Values <==> p < 4096 || InSome(ranges, p)
  }

  lemma {:induction false} BootValues(pages: seq<nat>, p: nat)
    ensures p in BootFlat(pages).Values <==> p < 4096 || p in pages
  {
    var m := BootFlat(pages);
    if p in m.Values {
      var v :| v in m && m[v] == p;
      assert p == BootPage(pages, v);
    }
    if p < 4096 { assert p in m && m[p] == p; }
    if p in pages {
      var k :| 0 <= k < |pages| && pages[k] == p;
      assert 4096 + k in m && m[4096 + k] == BootPage(pages, 4096 + k);
    }
  }

  lemma {:induction false} SortedGiveWholeMemory(ranges: seq<Range>)
    requires NoOverflow(ranges) && NoHighRange(ranges) && Sorted(ranges)
    ensures WholeMemory(BootFlat(Mapped(ranges, K_SPACE_END)), ranges)
  {
    hide Mapped, InSome, BootFlat;
    var pages := Mapped(ranges, K_SPACE_END);
    forall p: nat ensures p in BootFlat(pages).Values <==> p < 4096 || InSome(ranges, p) {
      MappedExact(ranges, K_SPACE_END, p);
      BootValues(pages, p);
    }
  }

  ghost predicate GoodRanges(ranges: seq<Range>) {
    NoOverflow(ranges) && DisjointRanges(ranges) && NoHighRange(ranges)
  }

  lemma {:induction false} GoodRangesGiveGoodMap(ranges: seq<Range>)
    requires GoodRanges(ranges)
    ensures var pages := Mapped(ranges, K_SPACE_END);
      && GoodMap(Placed(KernelFlat(), 4096, pages), ranges)
      && |Added(4096, |pages|, KernelRows())| == TablesFor(|pages|)
  {
    hide Mapped, Placed, BootFlat, Added, KernelRows, KernelFlat, TablesFor, Injective, InSome,
      NoOverflow, DisjointRanges, NoHighRange;
    var pages := Mapped(ranges, K_SPACE_END);
    MappedInside(ranges, K_SPACE_END);
    PlacedIsBootFlat(pages);
    BootFlatInjective(ranges);
    AddedCount(|pages|);
    BootFlatMeans(ranges, pages);
  }

  lemma {:induction false} GoodAndSorted(ranges: seq<Range>, m: map<nat, nat>)
    requires GoodRanges(ranges) && Sorted(ranges) && GoodMap(m, ranges)
    ensures WholeMemory(m, ranges)
  {
    SortedGiveWholeMemory(ranges);
  }

  /** Both loops of `init_paging`. The first fails exactly when four frames are not free. The second
      maps what `Mapped` says, exactly as long as at most one table too many is needed; after that
      two directory entries share page 0 as their table. */
  method InitPaging(s: Space, ranges: seq<Range>) returns (ok: bool, va: Word)
    requires s.Valid() && IdentityUpTo(s.Abs(), 0)
    modifies s, s.mm, s.mm.meta
    ensures ok <==> old(s.mm.nfree) >= 4
    ensures ok ==>
      var pages := Mapped(ranges, K_SPACE_END);
      var tables := |Added(4096, |pages|, KernelRows())|;
      && s.Usable() && va == Advance(K_SPACE_END, |pages|)
      && (s.Valid() <==> 4 + tables <= old(s.mm.nfree) + 1)
      && (s.Valid() ==> Flat(s.Abs()) == Placed(KernelFlat(), 4096, pages) && AllOpen(s.Abs()))
      && (4 + tables <= old(s.mm.nfree) ==> s.mm.nfree == old(s.mm.nfree) - 4 - tables)
      && (GoodRanges(ranges) ==> tables == TablesFor(|pages|))
      && (GoodRanges(ranges) && s.Valid() ==> GoodMap(Flat(s.Abs()), ranges))
      && (GoodRanges(ranges) && Sorted(ranges) && s.Valid() ==> WholeMemory(Flat(s.Abs()), ranges))
  {
    hide FrameTable.Sound, PageTables.Shaped, Ok, IdentityUpTo, Flat, GoodMap, GoodRanges, Placed, Added, Mapped,
      Advance, TablesFor, InUse, Present, AllOpen, WholeMemory, Sorted;
    va := K_SPACE_END;
    ok := MapKernelSpace(s);
    if !ok { return; }
    IdentityIsBooted(s.Abs(), s.mm.nfree);
    va := MapRanges(s, ranges);
    if GoodRanges(ranges) {
      GoodRangesGiveGoodMap(ranges);
      if Sorted(ranges) { GoodAndSorted(ranges, Placed(KernelFlat(), 4096, Mapped(ranges, K_SPACE_END))); }
    }
  }
}
