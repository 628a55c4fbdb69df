/** Two-level 32-bit page tables (src/mm.c, include/paging.h; the format is section 4.3 of the
    Intel SDM volume 3A) and the flat map from virtual to physical pages they stand for. */
module PageTables {
  import opened Wrappers
  import opened Bits

  const PAGES: nat := 0x10_0000   // pages of a 32-bit address space

  lemma {:induction false} ShrShr(x: nat, a: nat, b: nat)
    ensures Shr(x, a + b) == Shr(Shr(x, a), b)
  {
    if a != 0 { ShrShr(x / 2, a - 1, b); }
  }

  /** The low ten bits of a number, and the ten above them. */
  lemma {:induction false} TenAndTen(page: nat)
    requires page < PAGES
    ensures And(page, 0x3FF) == page % 1024
    ensures And(Shr(page, 10), 0x3FF) == page / 1024 && page / 1024 < 1024
  {
    hide And, Shr, Low, Ones;
    TenBits(page);
    TenBits(page / 1024);
    AndLow(page, 10);
    AndLow(page / 1024, 10);
  }

  lemma {:induction false} IndexMeaning(va: Word)
    ensures And(Shr(va, 22), 0x3FF) == va / 4096 / 1024 && va / 4096 / 1024 < 1024
    ensures And(Shr(va, 12), 0x3FF) == va / 4096 % 1024
  {
    hide And, Shr, Low, Ones, Shl;
    ShrShr(va, 12, 10);
    TwelveBits(va);
    TenAndTen(va / 4096);
  }

  /** `PDE_INDEX`: the directory entry of an address. */
  function PdeIndex(va: Word): (r: nat)
    ensures r == va / 4096 / 1024 && r < 1024
  {
    IndexMeaning(va);
    And(Shr(va, 22), 0x3FF)
  }

  /** `PTE_INDEX`: the entry of an address within its table. */
  function PteIndex(va: Word): (r: nat)
    ensures r == va / 4096 % 1024
  {
    IndexMeaning(va);
    And(Shr(va, 12), 0x3FF)
  }

  lemma {:induction false} OrStep(x: nat, y: nat)
    ensures Or(x, y) == if x == 0 then y else if y == 0 then x
                        else 2 * Or(x / 2, y / 2) + (if x % 2 == 1 || y % 2 == 1 then 1 else 0)
  {
  }

  lemma {:induction false} LowThree(x: nat)
    ensures Or(x, 7) == x - x % 8 + 7
  {
    OrStep(x, 7);
    OrStep(x / 2, 3);
    OrStep(x / 2 / 2, 1);
    OrStep(x / 2 / 2 / 2, 0);
    hide Or;
  }

  /** What an entry lets a program do with the page: write to it, and reach it in user mode. */
  datatype Rights = Rights(write: bool, user: bool)

  function RightsOf(e: Word): Rights { Rights(e / 2 % 2 == 1, e / 4 % 2 == 1) }

  /** An entry for page or table `pa`: the low three bits are set and the others are those of `pa`. */
  function Entry(pa: Word): (e: Word)
    ensures e == pa - pa % 8 + 7
    ensures e % 2 == 1 && e % 8 == 7 && e / 4096 == pa / 4096 && PageOf(e) == PageOf(pa)
  {
    OrFlags(pa, 7);
    LowThree(pa);
    Or(pa, 7)
  }

  lemma {:induction false} Halve(k: nat)
    ensures (2 * k + 1) / 2 == k && (2 * k + 1) % 2 == 1
  {
  }

  lemma {:induction false} Quarter(k: nat)
    ensures (4 * k + 3) / 4 == k
  {
  }

  lemma {:induction false} Eighth(k: nat)
    ensures (8 * k) % 8 == 0 && (8 * k + 7) % 8 == 7
  {
  }

  lemma {:induction false} BitsOfEight(q: nat, e: nat)
    requires e == 8 * q + 7
    ensures e / 2 % 2 == 1 && e / 4 % 2 == 1
  {
    assert e == 2 * (4 * q + 3) + 1 && e == 4 * (2 * q + 1) + 3 && 4 * q + 3 == 2 * (2 * q + 1) + 1;
    Halve(4 * q + 3);
    Halve(2 * q + 1);
    Quarter(2 * q + 1);
    Halve(q);
  }

  lemma {:induction false} AllBits(e: Word)
    requires e % 8 == 7
    ensures RightsOf(e) == Rights(true, true)
  {
    BitsOfEight(e / 8, e);
  }

  lemma {:induction false} WholePage(pa: Word)
    requires pa % 4096 == 0
    ensures pa % 8 == 0
  {
    var k := pa / 4096;
    assert pa == 8 * (512 * k);
    Eighth(512 * k);
  }

  /** The entry of a page is its address with PAGE_PRESENT, PAGE_WRITE and PAGE_USER. */
  lemma {:induction false} EntryGrants(pa: Word)
    ensures pa % 4096 == 0 ==> Entry(pa) == pa + 7
    ensures Entry(pa) % 2 == 1 && RightsOf(Entry(pa)) == Rights(true, true)
  {
    hide Entry, RightsOf;
    AllBits(Entry(pa));
    if pa % 4096 == 0 { WholePage(pa); }
  }

  /** The directory, and the pages of memory used as tables; page 0 is always there. */
  datatype Tables = Tables(dir: seq<Word>, mem: map<Word, seq<Word>>)

  predicate Shaped(t: Tables) {
    && |t.dir| == 1024
    && (forall p :: p in t.mem ==> |t.mem[p]| == 1024)
    && 0 in t.mem
    && (forall i :: 0 <= i < 1024 && t.dir[i] != 0 ==>
          t.dir[i] % 2 == 1 && t.dir[i] % 8 == 7 && PageOf(t.dir[i]) in t.mem)
  }

  /** Some directory entry points at page `frame`. */
  ghost predicate InUse(t: Tables, frame: Word) {
    exists i :: 0 <= i < |t.dir| && t.dir[i] != 0 && PageOf(t.dir[i]) == frame
  }

  /** No two directory entries share a table. */
  ghost predicate Ok(t: Tables) {
    && Shaped(t)
    && forall i, j :: 0 <= i < j < 1024 && t.dir[i] != 0 && t.dir[j] != 0 ==> PageOf(t.dir[i]) != PageOf(t.dir[j])
  }

  lemma {:induction false} OkIsShaped(t: Tables)
    requires Ok(t)
    ensures Shaped(t) && |t.dir| == 1024
  {
  }

  /** The hardware walk: the physical page of virtual page `v`, if both entries are present. */
  function Translate(t: Tables, v: nat): Option<nat>
    requires Shaped(t) && v < PAGES
  {
    var pde := t.dir[v / 1024];
    if pde % 2 == 0 then None
    else
      var pte := t.mem[PageOf(pde)][v % 1024];
      if pte % 2 == 0 then None else Some(pte / 4096)
  }

  /** The rights on virtual page `v`, if it is mapped: both entries on the walk must grant them. */
  function Access(t: Tables, v: nat): Option<Rights>
    requires Shaped(t) && v < PAGES
  {
    if Translate(t, v).None? then None
    else
      var pde := t.dir[v / 1024];
      var d, e := RightsOf(pde), RightsOf(t.mem[PageOf(pde)][v % 1024]);
      Some(Rights(d.write && e.write, d.user && e.user))
  }

  /** The flat map the tables stand for. */
  function Flat(t: Tables): map<nat, nat>
    requires Shaped(t)
  {
    map v: nat | v < PAGES && Translate(t, v).Some? :: Translate(t, v).value
  }

  function At(m: map<nat, nat>, v: nat): Option<nat> { if v in m then Some(m[v]) else None }

  lemma {:induction false} FlatIff(t: Tables, m: map<nat, nat>)
    requires Shaped(t) && forall v :: v in m ==> v < PAGES
    ensures Flat(t) == m <==> forall v: nat :: v < PAGES ==> Translate(t, v) == At(m, v)
  {
    var f := Flat(t);
    if forall v: nat :: v < PAGES ==> Translate(t, v) == At(m, v) {
      forall v: nat ensures v in f <==> v in m { assert v < PAGES ==> Translate(t, v) == At(m, v); }
      forall v | v in f ensures f[v] == m[v] { }
    }
    if f == m {
      forall v: nat | v < PAGES ensures Translate(t, v) == At(m, v) { assert v in f <==> v in m; }
    }
  }

  /** `__virt_to_phys`, which looks at no present bit. */
  function VirtToPhys(t: Tables, va: Word): Word
    requires Shaped(t) && PageOf(t.dir[PdeIndex(va)]) in t.mem
  {
    var frame := PageOf(t.mem[PageOf(t.dir[PdeIndex(va)])][PteIndex(va)]);
    OrFlags(frame, OffsetOf(va));
    Or(frame, OffsetOf(va))
  }

  /** On a mapped page it gives the physical page with the address's own offset. */
  lemma {:induction false} VirtToPhysTranslates(t: Tables, va: Word)
    requires Shaped(t) && Translate(t, va / 4096).Some?
    ensures PageOf(t.dir[PdeIndex(va)]) in t.mem
    ensures VirtToPhys(t, va) == 4096 * Translate(t, va / 4096).value + va % 4096
  {
    hide PdeIndex, PteIndex, PageOf, OffsetOf;
    var pde := t.dir[PdeIndex(va)];
    var pte := t.mem[PageOf(pde)][PteIndex(va)];
    OrFlags(PageOf(pte), OffsetOf(va));
    assert PageOf(pte) == 4096 * (pte / 4096);
  }

  // ---------------------------------------------------------------------------------- map

  function Zeros(): seq<Word> { seq(1024, _ => 0) }

  /** The state after the directory entry of `va` is made to point at the zeroed page `frame`. */
  function AddTable(t: Tables, pd: nat, frame: Word): Tables
    requires Shaped(t) && pd < 1024
  {
    Tables(t.dir[pd := Entry(frame)], t.mem[frame := Zeros()])
  }

  function SetEntry(t: Tables, page: Word, k: nat, e: Word): (r: Tables)
    requires Shaped(t) && page in t.mem && k < 1024
    ensures Shaped(r) && r.dir == t.dir
  {
    var entries: seq<Word> := t.mem[page][k := e];
    t.(mem := t.mem[page := entries])
  }

  /** `__page_map`, where `frame` is what `alloc_frame` returns if it is called (0 for NULL). */
  function MapAt(t: Tables, va: Word, pa: Word, frame: Word): (r: Tables)
    requires Shaped(t) && frame % 4096 == 0
    ensures Shaped(r)
  {
    var pd := PdeIndex(va);
    var t1 := if t.dir[pd] == 0 then AddTable(t, pd, frame) else t;
    SetEntry(t1, PageOf(t1.dir[pd]), PteIndex(va), Entry(pa))
  }

  /** `__page_unmap`: with no table the entry cleared is one of page 0. */
  function UnmapAt(t: Tables, va: Word): (r: Tables)
    requires Shaped(t)
    ensures Shaped(r)
  {
    SetEntry(t, PageOf(t.dir[PdeIndex(va)]), PteIndex(va), 0)
  }

  /** A page not in use can become a table: nothing else changes. */
  lemma {:induction false} AddTableKeeps(t: Tables, pd: nat, frame: Word, v: nat)
    requires Ok(t) && pd < 1024 && frame % 4096 == 0 && t.dir[pd] == 0 && !InUse(t, frame) && v < PAGES
    ensures Ok(AddTable(t, pd, frame)) && Translate(AddTable(t, pd, frame), v) == Translate(t, v)
    ensures Access(AddTable(t, pd, frame), v) == Access(t, v)
  {
    hide RightsOf, Entry;
    var t1 := AddTable(t, pd, frame);
    assert PageOf(t1.dir[pd]) == frame;
    assert forall i :: 0 <= i < 1024 && t.dir[i] != 0 ==> PageOf(t.dir[i]) != frame;
    assert v / 1024 == pd ==> t1.mem[PageOf(t1.dir[pd])][v % 1024] == 0;
  }

  /** Writing one entry of the table of `pd` changes one translation. */
  lemma {:induction false} SetEntryTranslates(t: Tables, pd: nat, k: nat, e: Word, v: nat)
    requires Ok(t) && pd < 1024 && k < 1024 && t.dir[pd] != 0 && v < PAGES
    ensures var r := SetEntry(t, PageOf(t.dir[pd]), k, e);
      && Ok(r)
      && Translate(r, v) ==
        (if v != 1024 * pd + k then Translate(t, v) else if e % 2 == 0 then None else Some(e / 4096))
      && Access(r, v) ==
        (if v != 1024 * pd + k then Access(t, v) else if e % 2 == 0 then None else Some(RightsOf(e)))
  {
    AllBits(t.dir[pd]);
    hide RightsOf;
    var w := v / 1024;
    assert v == 1024 * w + v % 1024;
    assert w < pd || pd < w ==> t.dir[w] == 0 || PageOf(t.dir[w]) != PageOf(t.dir[pd]);
  }

  /** With a table present or a page not in use to make one, `__page_map` is the update of the
      flat map at its own page. */
  lemma {:induction false} MapUpdatesFlat(t: Tables, va: Word, pa: Word, frame: Word)
    requires Ok(t) && frame % 4096 == 0 && (t.dir[PdeIndex(va)] != 0 || !InUse(t, frame))
    ensures Ok(MapAt(t, va, pa, frame))
    ensures Flat(MapAt(t, va, pa, frame)) == Flat(t)[va / 4096 := pa / 4096]
  {
    var pd, k, r := PdeIndex(va), PteIndex(va), MapAt(t, va, pa, frame);
    var t1 := if t.dir[pd] == 0 then AddTable(t, pd, frame) else t;
    if t.dir[pd] == 0 { AddTableKeeps(t, pd, frame, 0); }
    SetEntryTranslates(t1, pd, k, Entry(pa), 0);
    assert va / 4096 == 1024 * pd + k && va / 4096 < PAGES;
    var m := Flat(t)[va / 4096 := pa / 4096];
    forall v: nat | v < PAGES ensures Translate(r, v) == At(m, v) {
      if t.dir[pd] == 0 { AddTableKeeps(t, pd, frame, v); }
      SetEntryTranslates(t1, pd, k, Entry(pa), v);
      assert v != va / 4096 ==> (v in m <==> v in Flat(t));
    }
    FlatIff(r, m);
  }

  /** From `t` to `r` page `w` gets every right, and the rights on other pages stay. */
  ghost predicate OnlyGrants(t: Tables, r: Tables, w: nat)
    requires Shaped(t) && Shaped(r)
  {
    forall v: nat :: v < PAGES ==> Access(r, v) == if v == w then Some(Rights(true, true)) else Access(t, v)
  }

  /** It grants every right on its own page and changes the rights on no other. */
  lemma {:induction false} MapGrants(t: Tables, va: Word, pa: Word, frame: Word)
    requires Ok(t) && frame % 4096 == 0 && (t.dir[PdeIndex(va)] != 0 || !InUse(t, frame))
    ensures OnlyGrants(t, MapAt(t, va, pa, frame), va / 4096)
  {
    var pd, k := PdeIndex(va), PteIndex(va);
    var t1 := if t.dir[pd] == 0 then AddTable(t, pd, frame) else t;
    assert va / 4096 == 1024 * pd + k;
    EntryGrants(pa);
    hide Access, Translate, Entry, PdeIndex, PteIndex;
    forall v: nat | v < PAGES
      ensures Access(MapAt(t, va, pa, frame), v) ==
        if v == va / 4096 then Some(Rights(true, true)) else Access(t, v)
    {
      if t.dir[pd] == 0 { AddTableKeeps(t, pd, frame, v); }
      SetEntryTranslates(t1, pd, k, Entry(pa), v);
    }
  }

  /** Row `pd` of the flat map holds entry `k` for `pp` and nothing else. */
  ghost predicate RowIs(t: Tables, pd: nat, k: nat, pp: nat)
    requires Shaped(t)
  {
    forall v: nat :: v < PAGES && v / 1024 == pd ==> Translate(t, v) == if v % 1024 == k then Some(pp) else None
  }

  /** What follows when the page for a new table is already the table of entry `pe`, as page 0 is
      after a second NULL from `alloc_frame`. */
  lemma {:induction false} SharedTableTranslates(t: Tables, va: Word, pa: Word, frame: Word, pe: nat, v: nat)
    requires Ok(t) && frame % 4096 == 0 && t.dir[PdeIndex(va)] == 0
    requires pe < 1024 && t.dir[pe] != 0 && PageOf(t.dir[pe]) == frame && v < PAGES
    ensures Translate(MapAt(t, va, pa, frame), v) ==
      if v / 1024 != PdeIndex(va) && v / 1024 != pe then Translate(t, v)
      else if v % 1024 == PteIndex(va) then Some(pa / 4096) else None
  {
    var w, pd := v / 1024, PdeIndex(va);
    var t1 := AddTable(t, pd, frame);
    assert w != pe && t.dir[w] != 0 ==> PageOf(t.dir[w]) != frame by {
      var a, b := if w < pe then w else pe, if w < pe then pe else w;
      assert a < b && t.dir[a] != 0 && t.dir[b] != 0 ==> PageOf(t.dir[a]) != PageOf(t.dir[b]);
    }
    assert PageOf(t1.dir[pd]) == frame;
  }

  /** Then two entries share a table, and the flat map is updated correctly exactly when the old
      row happened to consist of this one mapping. */
  lemma {:induction false} SharedTableIff(t: Tables, va: Word, pa: Word, frame: Word, pe: nat)
    requires Ok(t) && frame % 4096 == 0 && t.dir[PdeIndex(va)] == 0
    requires pe < 1024 && t.dir[pe] != 0 && PageOf(t.dir[pe]) == frame
    ensures !Ok(MapAt(t, va, pa, frame))
    ensures Flat(MapAt(t, va, pa, frame)) == Flat(t)[va / 4096 := pa / 4096] <==> RowIs(t, pe, PteIndex(va), pa / 4096)
  {
    var pd, k, r := PdeIndex(va), PteIndex(va), MapAt(t, va, pa, frame);
    assert PageOf(r.dir[pd]) == PageOf(r.dir[pe]) && r.dir[pd] != 0 && r.dir[pe] != 0 && pd != pe;
    var m := Flat(t)[va / 4096 := pa / 4096];
    FlatIff(r, m);
    forall v: nat | v < PAGES
      ensures Translate(r, v) == At(m, v) <==>
        (v / 1024 == pe ==> Translate(t, v) == if v % 1024 == k then Some(pa / 4096) else None)
    {
      SharedTableTranslates(t, va, pa, frame, pe, v);
      assert v == va / 4096 <==> v / 1024 == pd && v % 1024 == k;
      assert At(m, v) == if v == va / 4096 then Some(pa / 4096) else Translate(t, v);
    }
  }

  /** Once two entries share a table they share it for good. */
  lemma {:induction false} SharingStays(t: Tables, va: Word, pa: Word, frame: Word)
    requires Shaped(t) && !Ok(t) && frame % 4096 == 0
    ensures !Ok(MapAt(t, va, pa, frame))
  {
    var i, j :| 0 <= i < j < 1024 && t.dir[i] != 0 && t.dir[j] != 0 && PageOf(t.dir[i]) == PageOf(t.dir[j]);
    var r := MapAt(t, va, pa, frame);
    assert r.dir[i] == t.dir[i] && r.dir[j] == t.dir[j];
  }

  /** Page 0 is a table afterwards if it was, or if a new table was needed and no frame came. */
  lemma {:induction false} NullInUse(t: Tables, va: Word, pa: Word, frame: Word)
    requires Shaped(t) && frame % 4096 == 0
    ensures InUse(MapAt(t, va, pa, frame), 0) <==> InUse(t, 0) || (t.dir[PdeIndex(va)] == 0 && frame == 0)
  {
    hide PdeIndex, PteIndex;
    var r, pd := MapAt(t, va, pa, frame), PdeIndex(va);
    assert forall i :: 0 <= i < 1024 && i != pd ==> r.dir[i] == t.dir[i];
    assert t.dir[pd] == 0 ==> PageOf(r.dir[pd]) == frame;
    if InUse(t, 0) {
      var i :| 0 <= i < |t.dir| && t.dir[i] != 0 && PageOf(t.dir[i]) == 0;
      assert r.dir[i] == t.dir[i];
    }
    if t.dir[pd] == 0 && frame == 0 { assert r.dir[pd] != 0; }
  }

  /** Two directory entries made while no frame is free: the second mapping wipes the first. */
  lemma {:induction false} TwoNullsLoseMapping()
    ensures var t0 := Tables(Zeros(), map[0 := Zeros()]);
      var t1 := MapAt(t0, 0x40_0000, 0x180_0000, 0);
      var t2 := MapAt(t1, 0x80_1000, 0x190_0000, 0);
      Flat(t1) == map[0x400 := 0x1800] && 0x400 !in Flat(t2)
  {
    hide PdeIndex, PteIndex, Entry, PageOf;
    var t0 := Tables(Zeros(), map[0 := Zeros()]);
    FlatIff(t0, map[]);
    MapUpdatesFlat(t0, 0x40_0000, 0x180_0000, 0);
    var t1 := MapAt(t0, 0x40_0000, 0x180_0000, 0);
    assert t1.dir == t0.dir[1 := Entry(0)];
    SharedTableTranslates(t1, 0x80_1000, 0x190_0000, 0, 1, 0x400);
  }

  // -------------------------------------------------------------------------------- unmap

  lemma {:induction false} RemoveEntry(t: Tables, pd: nat, k: nat)
    requires Ok(t) && pd < 1024 && k < 1024 && t.dir[pd] != 0
    ensures var r := SetEntry(t, PageOf(t.dir[pd]), k, 0); Ok(r) && Flat(r) == Flat(t) - {1024 * pd + k}
  {
    var r, m := SetEntry(t, PageOf(t.dir[pd]), k, 0), Flat(t) - {1024 * pd + k};
    SetEntryTranslates(t, pd, k, 0, 0);
    forall v: nat | v < PAGES ensures Translate(r, v) == At(m, v) {
      SetEntryTranslates(t, pd, k, 0, v);
      assert v in m <==> v in Flat(t) && v != 1024 * pd + k;
    }
    FlatIff(r, m);
  }

  /** `__page_unmap` of an address with a table removes exactly its own page. */
  lemma {:induction false} UnmapRemovesOwn(t: Tables, va: Word)
    requires Ok(t) && t.dir[PdeIndex(va)] != 0
    ensures Ok(UnmapAt(t, va)) && Flat(UnmapAt(t, va)) == Flat(t) - {va / 4096}
  {
    RemoveEntry(t, PdeIndex(va), PteIndex(va));
    assert va / 4096 == 1024 * PdeIndex(va) + PteIndex(va);
  }

  /** And leaves the rights on every other page. */
  lemma {:induction false} UnmapKeepsRights(t: Tables, va: Word, v: nat)
    requires Ok(t) && t.dir[PdeIndex(va)] != 0 && v < PAGES
    ensures Access(UnmapAt(t, va), v) == if v == va / 4096 then None else Access(t, v)
  {
    hide Access, Translate, PdeIndex, PteIndex;
    SetEntryTranslates(t, PdeIndex(va), PteIndex(va), 0, v);
  }

  /** With no table, unmapping leaves the flat map alone if page 0 is not a table. */
  lemma {:induction false} UnmapOutsideTables(t: Tables, va: Word)
    requires Ok(t) && t.dir[PdeIndex(va)] == 0 && !InUse(t, 0)
    ensures Flat(UnmapAt(t, va)) == Flat(t)
  {
    var r := UnmapAt(t, va);
    assert forall i :: 0 <= i < 1024 && t.dir[i] != 0 ==> PageOf(t.dir[i]) != 0;
    forall v: nat | v < PAGES ensures Translate(r, v) == At(Flat(t), v) { }
    FlatIff(r, Flat(t));
  }

  /** Page 0 is a table with its entry `k` present. */
  ghost predicate NullTableMaps(t: Tables, k: nat)
    requires Shaped(t)
  {
    exists pe :: 0 <= pe < 1024 && t.dir[pe] != 0 && PageOf(t.dir[pe]) == 0 && 1024 * pe + k in Flat(t)
  }

  lemma {:induction false} UnmapThroughNull(t: Tables, va: Word, pe: nat)
    requires Ok(t) && t.dir[PdeIndex(va)] == 0 && pe < 1024 && t.dir[pe] != 0 && PageOf(t.dir[pe]) == 0
    ensures Flat(UnmapAt(t, va)) == Flat(t) - {1024 * pe + PteIndex(va)}
    ensures NullTableMaps(t, PteIndex(va)) <==> 1024 * pe + PteIndex(va) in Flat(t)
  {
    hide PdeIndex, PteIndex, PageOf;
    RemoveEntry(t, pe, PteIndex(va));
    assert forall i :: 0 <= i < 1024 && t.dir[i] != 0 && PageOf(t.dir[i]) == 0 ==> i == pe;
    hide Flat;
  }

  /** With no table, the address was not mapped, and unmapping it leaves the flat map alone exactly
      when page 0 is not a table with that entry present. */
  lemma {:induction false} UnmapWithoutTableIff(t: Tables, va: Word)
    requires Ok(t) && t.dir[PdeIndex(va)] == 0
    ensures va / 4096 !in Flat(t)
    ensures Flat(UnmapAt(t, va)) == Flat(t) <==> !NullTableMaps(t, PteIndex(va))
  {
    hide PdeIndex, PteIndex, PageOf, UnmapAt;
    assert va / 4096 !in Flat(t);
    hide Flat;
    var k := PteIndex(va);
    if InUse(t, 0) {
      var pe: nat :| pe < |t.dir| && t.dir[pe] != 0 && PageOf(t.dir[pe]) == 0;
      UnmapThroughNull(t, va, pe);
      assert Flat(t) - {1024 * pe + k} == Flat(t) <==> 1024 * pe + k !in Flat(t);
    } else {
      UnmapOutsideTables(t, va);
      assert !NullTableMaps(t, k);
    }
  }

  lemma {:induction false} MapSetsEntry(t: Tables, va: Word, pa: Word, frame: Word)
    requires Shaped(t) && frame % 4096 == 0
    ensures Shaped(MapAt(t, va, pa, frame)) && MapAt(t, va, pa, frame).dir[PdeIndex(va)] != 0
  {
    hide PdeIndex, PageOf;
  }

  lemma {:induction false} SetThenRemove(m: map<nat, nat>, v: nat, p: nat)
    ensures m[v := p] - {v} == m - {v}
  {
  }

  /** Mapping and then unmapping a page restores every other translation. */
  lemma {:induction false} MapThenUnmap(t: Tables, va: Word, pa: Word, frame: Word)
    requires Ok(t) && frame % 4096 == 0 && (t.dir[PdeIndex(va)] != 0 || !InUse(t, frame))
    ensures Flat(UnmapAt(MapAt(t, va, pa, frame), va)) == Flat(t) - {va / 4096}
  {
    hide PdeIndex, PageOf, MapAt, UnmapAt, Flat, Ok, InUse, Shaped;
    OkIsShaped(t);
    MapUpdatesFlat(t, va, pa, frame);
    MapSetsEntry(t, va, pa, frame);
    UnmapRemovesOwn(MapAt(t, va, pa, frame), va);
    SetThenRemove(Flat(t), va / 4096, pa / 4096);
  }
}
