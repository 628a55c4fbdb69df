/** A page directory updated in place, with its tables taken from a frame allocator. */
module AddressSpace {
  import opened Wrappers
  import opened Bits
  import FrameColors
  import opened FrameAllocator
  import opened PageTables

  lemma {:induction false} ZerosLength()
    ensures |Zeros()| == 1024
  {
  }

  /** What `__page_map` does to the tables, all cases together. */
  lemma {:induction false} MapEffect(t: Tables, va: Word, pa: Word, frame: Word)
    requires PageTables.Shaped(t) && frame % 4096 == 0
    ensures var r := MapAt(t, va, pa, frame);
      && (!Ok(t) ==> !Ok(r))
      && (Ok(t) ==> (Ok(r) <==> t.dir[PdeIndex(va)] != 0 || !InUse(t, frame)))
      && (Ok(t) && Ok(r) ==> Flat(r) == Flat(t)[va / 4096 := pa / 4096] && OnlyGrants(t, r, va / 4096))
      && (InUse(r, 0) <==> InUse(t, 0) || (t.dir[PdeIndex(va)] == 0 && frame == 0))
  {
    NullInUse(t, va, pa, frame);
    hide PdeIndex, PageOf, OnlyGrants;
    if !Ok(t) {
      SharingStays(t, va, pa, frame);
    } else if t.dir[PdeIndex(va)] != 0 || !InUse(t, frame) {
      MapUpdatesFlat(t, va, pa, frame);
      MapGrants(t, va, pa, frame);
    } else {
      var pe: nat :| pe < |t.dir| && t.dir[pe] != 0 && PageOf(t.dir[pe]) == frame;
      SharedTableIff(t, va, pa, frame, pe);
    }
  }

  class Space {
    const mm: FrameTable
    var dir: seq<Word>
    var mem: map<Word, seq<Word>>

    ghost function Abs(): Tables
      reads this
    {
      Tables(dir, mem)
    }

    /** Every table except one at page 0 is a live allocation of `mm`. */
    ghost predicate Owns()
      reads this, mm
    {
      forall i :: 0 <= i < |dir| && dir[i] != 0 && PageOf(dir[i]) != 0 ==> OwnedIn(mm.abs, mm.frameBase, PageOf(dir[i]))
    }

    /** All that a call needs: entries point at memory, and tables are owned. */
    ghost predicate Usable()
      reads this, mm, mm.meta
    {
      mm.Valid() && PageTables.Shaped(Abs()) && Owns()
    }

    /** In addition no two entries share a table, so that the tables stand for a flat map. */
    ghost predicate Valid()
      reads this, mm, mm.meta
    {
      Usable() && Ok(Abs())
    }

    /** An empty directory. */
    constructor (mm: FrameTable)
      requires mm.Valid()
      ensures Valid() && this.mm == mm && Flat(Abs()) == map[] && !InUse(Abs(), 0) && dir == Zeros()
    {
      this.mm := mm;
      dir := Zeros();
      mem := map[0 := Zeros()];
      new;
      FlatIff(Abs(), map[]);
    }

    /** A frame for a new table: not a table of this directory, and owned from now on. */
    method NewFrame() returns (frame: Option<Word>)
      requires Usable()
      modifies mm, mm.meta
      ensures Usable() && mm.meta == old(mm.meta)
      ensures frame.None? <==> old(mm.nfree) == 0
      ensures mm.nfree == if frame.Some? then old(mm.nfree) - 1 else 0
      ensures frame.Some? ==>
        && frame.value % 4096 == 0 && frame.value != 0
        && !InUse(Abs(), frame.value) && OwnedIn(mm.abs, mm.frameBase, frame.value)
    {
      assert mm.frameBase % 4096 == 0;
      hide OwnedIn, PageOf, FrameTable.Sound, PageTables.Shaped;
      frame := mm.Alloc(1);
    }

    /** The table for directory entry `pd`, made from a new frame if there is none. A NULL from the
        allocator is not noticed: page 0 becomes the table. */
    method TableFor(pd: nat) returns (ptp: Word)
      requires Usable() && pd < 1024
      modifies this, mm, mm.meta
      ensures Usable() && mm.meta == old(mm.meta)
      ensures ptp % 4096 == 0
      ensures old(dir[pd]) != 0 ==> Abs() == old(Abs()) && ptp == PageOf(dir[pd]) && mm.nfree == old(mm.nfree)
      ensures old(dir[pd]) == 0 ==> Abs() == AddTable(old(Abs()), pd, ptp)
      ensures old(dir[pd]) == 0 && old(mm.nfree) > 0 ==>
        ptp != 0 && !InUse(old(Abs()), ptp) && mm.nfree == old(mm.nfree) - 1
      ensures old(dir[pd]) == 0 && old(mm.nfree) == 0 ==> ptp == 0 && mm.nfree == 0
    {
      hide OwnedIn, PageOf, Entry, Zeros, FrameTable.Sound;
      if dir[pd] == 0 {
        var frame := NewFrame();
        ptp := if frame.Some? then frame.value else 0;
        dir := dir[pd := Entry(ptp)];
        mem := mem[ptp := Zeros()];
        assert forall i :: 0 <= i < 1024 && i != pd ==> dir[i] == old(dir[i]);
        assert |Zeros()| == 1024 by { ZerosLength(); }
      } else {
        ptp := PageOf(dir[pd]);
      }
    }

    /** `__page_map` refines the flat map exactly under its guard: a table is there, or a frame is
        free, or page 0 is not yet a table. */
    method PageMap(va: Word, pa: Word) returns (status: int)
      requires Usable()
      modifies this, mm, mm.meta
      ensures status == 0 && Usable() && mm.meta == old(mm.meta)
      ensures old(Valid()) ==>
        (Valid() <==> old(dir[PdeIndex(va)]) != 0 || old(mm.nfree) > 0 || !InUse(old(Abs()), 0))
      ensures old(Valid()) && Valid() ==> Flat(Abs()) == old(Flat(Abs()))[va / 4096 := pa / 4096]
      ensures old(Valid()) && Valid() ==> OnlyGrants(old(Abs()), Abs(), va / 4096)
      ensures !old(Ok(Abs())) ==> !Ok(Abs())
      ensures mm.nfree == if old(dir[PdeIndex(va)]) == 0 && old(mm.nfree) > 0 then old(mm.nfree) - 1 else old(mm.nfree)
      ensures forall i :: 0 <= i < 1024 && i != PdeIndex(va) ==> dir[i] == old(dir[i])
      ensures dir[PdeIndex(va)] != 0
      ensures InUse(Abs(), 0) <==> InUse(old(Abs()), 0) || (old(dir[PdeIndex(va)]) == 0 && old(mm.nfree) == 0)
    {
      hide FrameTable.Sound, OwnedIn, PdeIndex, PteIndex, PageOf, Entry, Zeros, OnlyGrants;
      ghost var t := Abs();
      var pd := PdeIndex(va);
      var ptp := TableFor(pd);
      var entries: seq<Word> := mem[ptp][PteIndex(va) := Entry(pa)];
      mem := mem[ptp := entries];
      assert Abs() == MapAt(t, va, pa, ptp);
      MapEffect(t, va, pa, ptp);
      status := 0;
    }

    /** `__page_unmap`: with a table it removes its own page only; without one, something else is
        unmapped exactly when page 0 is a table with that entry present. */
    method PageUnmap(va: Word) returns (status: int)
      requires Valid()
      modifies this`mem
      ensures status == 0 && Valid()
      ensures dir[PdeIndex(va)] != 0 ==> Flat(Abs()) == old(Flat(Abs())) - {va / 4096}
      ensures dir[PdeIndex(va)] != 0 ==> forall v: nat :: v < PAGES && v != va / 4096 ==>
        Access(Abs(), v) == Access(old(Abs()), v)
      ensures dir[PdeIndex(va)] == 0 ==>
        (Flat(Abs()) == old(Flat(Abs())) <==> !NullTableMaps(old(Abs()), PteIndex(va)))
    {
      ghost var t := Abs();
      var ptp := PageOf(dir[PdeIndex(va)]);
      var entries: seq<Word> := mem[ptp][PteIndex(va) := 0];
      mem := mem[ptp := entries];
      assert Abs() == UnmapAt(t, va);
      if t.dir[PdeIndex(va)] != 0 {
        UnmapRemovesOwn(t, va);
        forall v: nat | v < PAGES && v != va / 4096 ensures Access(Abs(), v) == Access(t, v) {
          UnmapKeepsRights(t, va, v);
        }
      } else {
        UnmapWithoutTableIff(t, va);
      }
      status := 0;
    }
  }
}
