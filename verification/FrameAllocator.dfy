/** The frame allocator of src/mm.c: the in-memory frame table, its initialisation over a raw
    region, and `alloc_frames` / `free_frames` working on its words in place. */
module FrameAllocator {
  import opened Bits
  import opened Wrappers
  import opened FrameColors

  /** `PGCOLOR(w)`. */
  function ColorOf(w: Word): (c: nat)
    ensures c == w % 256
  {
    EightBits(w);
    AndLow(w, 8);
    And(w, 0xFF)
  }

  // ------------------------------------------------------------- layout of a raw region

  /** `PAGE_CONTAIN`: the number of pages that hold `mem` bytes. */
  function PageContain(mem: nat): (pages: nat)
    ensures mem <= 4096 * pages < mem + 4096
  {
    mem / 4096 + (if mem % 4096 != 0 then 1 else 0)
  }

  /** How `MM_PAGE_TABLE` divides `pages` pages: this many frames, the rest hold the table. */
  function FramesOf(pages: nat): nat { pages * 1024 / 1025 }

  /** `frames` of `pages` pages can be managed by a table held in the others. */
  predicate Manageable(pages: nat, frames: nat) {
    frames <= pages && (pages - frames) * 1024 >= frames
  }

  /** The table has room for an entry per frame, both parts are used, and no other division of
      the same pages would manage more frames. */
  lemma {:induction false} SplitIsSafeAndOptimal(pages: nat)
    requires pages >= 2
    ensures 1 <= FramesOf(pages) < pages
    ensures Manageable(pages, FramesOf(pages))
    ensures forall f: nat :: Manageable(pages, f) ==> f <= FramesOf(pages)
  {
    var n := FramesOf(pages);
    assert 1025 * n <= 1024 * pages < 1025 * n + 1025;
  }

  /** Number of the first page boundary at or after an address, and of the last at or before. */
  function PageUp(address: nat): nat { (address + 4095) / 4096 }
  function PageDown(address: nat): nat { address / 4096 }

  /** A boundary as a 32-bit address: the one at the very end wraps to zero. */
  function Boundary(page: nat): nat { if page == 0x10_0000 then 0 else 4096 * page }

  lemma {:induction false} AlignedUp(base: Word)
    ensures PageAlign(base) == Boundary(PageUp(base)) && PageUp(base) <= 0x10_0000
  {
  }

  lemma {:induction false} AlignedDown(end: nat)
    requires end <= WORD_SIZE
    ensures PageOf(if end == WORD_SIZE then 0 else end) == Boundary(PageDown(end))
    ensures PageDown(end) <= 0x10_0000
  {
  }

  /** The page count `MM_PAGE_TABLE` computes, with its 32-bit subtraction. */
  function CountedPages(base: Word, length: Word): nat {
    Sub(PageOf(Add(base, length)), PageAlign(base)) / 4096
  }

  /** The region reaches from a page boundary to the same or a later one. */
  predicate TouchesBoundary(base: Word, length: Word) {
    PageUp(base) <= PageDown(base + length)
  }

  lemma {:induction false} WrappedPages(a: nat, b: nat)
    requires a <= b + 1 && a <= 0x10_0000 && b <= 0x10_0000
    requires a == 0 ==> b < 0x10_0000
    ensures Sub(Boundary(b), Boundary(a)) / 4096 == if a <= b then b - a else 0xF_FFFF
  {
  }

  /** The count is right exactly when the region touches a page boundary; otherwise the
      subtraction wraps and nearly the whole address space is counted. */
  lemma {:induction false} CountedPagesExact(base: Word, length: Word)
    requires base + length <= WORD_SIZE
    ensures CountedPages(base, length) ==
      if TouchesBoundary(base, length) then PageDown(base + length) - PageUp(base) else 0xF_FFFF
  {
    AlignedUp(base);
    AlignedDown(base + length);
    WrappedPages(PageUp(base), PageDown(base + length));
  }

  /** A region holding no whole page that the initialisation nevertheless accepts. */
  lemma {:induction false} TinyRegionMiscounted()
    ensures CountedPages(0x10_0001, 10) == 0xF_FFFF
  {
    CountedPagesExact(0x10_0001, 10);
  }

  lemma {:induction false} RightLayoutFits(base: nat, end: nat, a: nat, b: nat, mpg: nat, npg: nat)
    requires end <= WORD_SIZE && base <= 4096 * a && 4096 * b <= end
    requires a + mpg + npg == b && mpg >= 1 && npg >= 1
    ensures Boundary(a) == 4096 * a && base <= Boundary(a)
    ensures var frames := 4096 * a + 4096 * mpg;
      4096 <= frames < WORD_SIZE && frames % 4096 == 0 && frames + 4096 * npg <= end
  {
    assert 4096 * a + 4096 * mpg + 4096 * npg == 4096 * b;
    assert 4096 * a + 4096 * mpg == 4096 * (a + mpg);
  }

  lemma {:induction false} WrappedLayoutLeaves(base: nat, end: nat, a: nat, mpg: nat, npg: nat)
    requires base <= end <= WORD_SIZE && end / 4096 < a && 4096 * a < base + 4096
    requires mpg + npg == 0xF_FFFF && a <= 0x10_0000
    ensures !(base <= Boundary(a) && Boundary(a) + 4096 * mpg + 4096 * npg <= end)
  {
  }

  /** The table followed by the frames fits the region exactly when the count was right. */
  lemma {:induction false} LayoutInside(base: Word, length: Word, mpg: nat, npg: nat)
    requires base + length <= WORD_SIZE && 1 <= mpg <= 0xF_FFFF && npg >= 1
    requires mpg + npg == CountedPages(base, length)
    ensures var first := PageAlign(base);
      var frames := Add(first, 4096 * mpg);
      && (base <= first && first + 4096 * mpg == frames && frames + 4096 * npg <= base + length
          <==> TouchesBoundary(base, length))
      && (TouchesBoundary(base, length) ==>
            frames % 4096 == 0 && 4096 <= frames && frames + 4096 * npg <= WORD_SIZE)
  {
    CountedPagesExact(base, length);
    AlignedUp(base);
    if TouchesBoundary(base, length) {
      RightLayoutFits(base, base + length, PageUp(base), PageDown(base + length), mpg, npg);
    } else {
      WrappedLayoutLeaves(base, base + length, PageUp(base), mpg, npg);
    }
  }

  /** The words fit between the table's start and the frames; the table is at 0 exactly when the
      region is. */
  lemma {:induction false} TableInside(base: Word, length: Word, mpg: nat, npg: nat)
    requires base + length <= WORD_SIZE && 1 <= mpg <= 0xF_FFFF && npg >= 1 && mpg * 1024 >= npg
    requires mpg + npg == CountedPages(base, length) && TouchesBoundary(base, length)
    ensures PageAlign(base) + 4 * npg <= Add(PageAlign(base), 4096 * mpg)
    ensures PageAlign(base) == 0 <==> base == 0
  {
    LayoutInside(base, length, mpg, npg);
    hide CountedPages, TouchesBoundary, Add;
  }

  // ----------------------------------------------------------------------- the table

  /** Word `i` of the table is the address of frame `i` plus its colour. */
  ghost predicate Encodes(words: seq<Word>, frameBase: nat, c: Colors) {
    && |c| <= |words|
    && forall i :: 0 <= i < |c| ==> c[i] <= 3 && words[i] == frameBase + 4096 * i + c[i]
  }

  /** What `find_seq_pages` returns for a table at `metaBase`: the address of the first entry of
      the lowest window, and NULL for none. */
  function SeqPages(metaBase: nat, c: Colors, n: nat): nat {
    match FirstFit(c, n)
    case None => 0
    case Some(i) => metaBase + 4 * i
  }

  /** NULL means that there is no window, exactly unless the table is at address 0 and the window
      starts at its first entry. */
  lemma {:induction false} NullMeansNoneIff(metaBase: nat, c: Colors, n: nat)
    ensures (SeqPages(metaBase, c, n) == 0 <==> FirstFit(c, n).None?) <==>
      !(metaBase == 0 && FirstFit(c, n) == Some(0))
  {
  }

  /** A table at address 0 never allocates: from the start every answer is NULL. */
  lemma {:induction false} TableAtZeroNeverAllocates(frames: nat, n: nat)
    ensures SeqPages(0, FrameColors.Init(frames).colors, n) == 0
  {
    var c := FrameColors.Init(frames).colors;
    if n >= 1 {
      FirstFitIsLowest(c, n, 0);
      assert n <= frames ==> Window(c, 0, n);
    }
  }

  lemma {:induction false} SmallRemainder(k: nat, c: nat)
    requires c <= 3
    ensures (4096 * k + c) % 4096 == c && (4096 * k + c) % 256 == c
  {
    assert 4096 * k + c == 256 * (16 * k) + c;
  }

  /** Reading a table word gives back its frame and its colour. */
  lemma {:induction false} WordParts(w: Word, page: nat)
    requires page % 4096 == 0 && page <= w <= page + 3
    ensures PageOf(w) == page && ColorOf(w) == w - page
  {
    hide PageOf, ColorOf;
    SmallRemainder(page / 4096, w - page);
  }

  /** Address `a` lies in a frame that is part of a live allocation. */
  ghost predicate OwnedIn(s: FrameColors.State, frameBase: nat, a: int) {
    && frameBase <= a < frameBase + 4096 * |s.colors|
    && LiveAt(s, (a - frameBase) / 4096)
  }

  /** In bytes: an allocation of `n` frames at `p` adds exactly [p, p + 4096 n) to what is owned,
      and none of it was owned before. */
  lemma {:induction false} AllocOwns(s: FrameColors.State, frameBase: nat, n: nat, a: nat)
    requires Inv(s) && FirstFit(s.colors, n).Some?
    ensures var p := frameBase + 4096 * FirstFit(s.colors, n).value;
      && (p <= a < p + 4096 * n ==> !OwnedIn(s, frameBase, a))
      && (OwnedIn(Step(s, FrameColors.Alloc(n)), frameBase, a) <==>
            OwnedIn(s, frameBase, a) || p <= a < p + 4096 * n)
  {
    if frameBase <= a {
      var i := FirstFit(s.colors, n).value;
      var k := (a - frameBase) / 4096;
      assert Window(s.colors, i, n);
      AllocLiveness(s, n, k);
      assert Extent(i, n).Has(k) <==> frameBase + 4096 * i <= a < frameBase + 4096 * i + 4096 * n;
    }
  }

  lemma {:induction false} AllocOwnsBytes(s: FrameColors.State, frameBase: nat, n: nat)
    requires Inv(s) && FirstFit(s.colors, n).Some?
    ensures var i := FirstFit(s.colors, n).value;
      var p := frameBase + 4096 * i;
      && 1 <= n && i + n <= |s.colors|
      && (forall a :: p <= a < p + 4096 * n ==> !OwnedIn(s, frameBase, a))
      && (forall a :: OwnedIn(Step(s, FrameColors.Alloc(n)), frameBase, a) <==>
            OwnedIn(s, frameBase, a) || p <= a < p + 4096 * n)
  {
    var i := FirstFit(s.colors, n).value;
    assert Window(s.colors, i, n);
    var p := frameBase + 4096 * i;
    hide Inv, FirstFit, Step;
    forall a
      ensures p <= a < p + 4096 * n ==> !OwnedIn(s, frameBase, a)
      ensures OwnedIn(Step(s, FrameColors.Alloc(n)), frameBase, a) <==>
        OwnedIn(s, frameBase, a) || p <= a < p + 4096 * n
    {
      if a >= 0 { AllocOwns(s, frameBase, n, a); }
    }
  }

  lemma {:induction false} SetUpIdle(frames: nat)
    ensures forall i :: !LiveAt(FrameColors.Init(frames), i)
    ensures var c := FrameColors.Init(frames).colors; |c| == frames && forall i :: 0 <= i < frames ==> c[i] == WHITE
  {
  }

  lemma {:induction false} InitialTable(frames: nat)
    ensures Inv(FrameColors.Init(frames)) && CountWhite(FrameColors.Init(frames).colors) == frames
  {
    RunDecodesAllocations(frames, []);
    CountWhiteUniform(FrameColors.Init(frames).colors, WHITE);
  }

  /** Number of the frame holding an address, counted from `frameBase`. */
  function IndexFrom(frameBase: nat, address: nat): nat
    requires frameBase <= address
  {
    (address - frameBase) / 4096
  }

  lemma {:induction false} PageNumber(frameBase: nat, mp: Word)
    requires frameBase % 4096 == 0
    ensures PageOf(mp) <= mp && (frameBase > mp ==> PageOf(mp) < frameBase)
    ensures frameBase <= mp ==> frameBase + 4096 * IndexFrom(frameBase, mp) == PageOf(mp) as nat
  {
  }

  class FrameTable {
    var base: Word
    var length: Word
    var metaBase: Word
    var mframes: nat
    var frameBase: Word
    var nframes: nat
    var nfree: nat
    var meta: array<Word>
    ghost var abs: FrameColors.State   // colours the words carry, and the live allocations

    ghost predicate Layout()
      reads this
    {
      && frameBase % 4096 == 0 && 4096 <= frameBase
      && frameBase + 4096 * nframes <= WORD_SIZE
      && metaBase + 4 * nframes <= frameBase
    }

    /** The words encode the colours; a table at address 0 is still as it was set up. */
    ghost predicate Sound()
      reads this, meta
    {
      && Layout()
      && |abs.colors| == nframes && Encodes(meta[..], frameBase, abs.colors)
      && nfree == CountWhite(abs.colors)
      && Inv(abs)
      && (metaBase == 0 ==> abs == FrameColors.Init(nframes))
    }

    ghost predicate Valid()
      reads this, meta
    {
      Sound() && metaBase != 0
    }

    ghost function FrameAddress(i: nat): nat
      reads this
    {
      frameBase + 4096 * i
    }

    ghost predicate Manages(address: nat)
      reads this
    {
      frameBase <= address < frameBase + 4096 * nframes
    }

    /** Index of the frame holding a managed address. */
    ghost function FrameIndex(address: nat): nat
      requires Manages(address)
      reads this
    {
      IndexFrom(frameBase, address)
    }

    constructor ()
    {
      base, length, metaBase, frameBase := 0, 0, 0, 0;
      mframes, nframes, nfree := 0, 0, 0;
      meta := new Word[0];
      abs := State([], {});
    }

    /** The initialisation loop: frame addresses, all white, then zero words. */
    static method FillTable(frameBase: Word, n: nat, size: nat) returns (table: array<Word>)
      requires n <= size
      ensures fresh(table) && table.Length == size
      ensures forall i :: n <= i < size ==> table[i] == 0
      ensures frameBase + 4096 * n <= WORD_SIZE ==> forall i :: 0 <= i < n ==> table[i] == frameBase + 4096 * i
    {
      table := new Word[size];
      var basep := frameBase;
      for i := 0 to size
        invariant i < n && frameBase + 4096 * n <= WORD_SIZE ==> basep == frameBase + 4096 * i
        invariant frameBase + 4096 * n <= WORD_SIZE ==>
          forall k :: 0 <= k < i && k < n ==> table[k] == frameBase + 4096 * k
        invariant forall k :: n <= k < i ==> table[k] == 0
      {
        if i < n {
          table[i] := basep;
          basep := Add(basep, 4096);
        } else {
          table[i] := 0;
        }
      }
    }

    /** `MM_PAGE_TABLE`: 1 when fewer than two pages are counted, otherwise 0. When the region
        touches a page boundary the table and every frame lie inside it, all frames are white
        and nothing is live; when it does not, the accepted layout leaves the region. */
    method Init(base: Word, length: Word) returns (status: int)
      requires base + length <= WORD_SIZE
      modifies this
      ensures status == 1 <==> CountedPages(base, length) < 2
      ensures status == 1 || status == 0
      ensures status == 1 ==> unchanged(this)
      ensures status == 0 ==>
        var pages := CountedPages(base, length);
        nframes == FramesOf(pages) && mframes == pages - nframes && nfree == nframes
      ensures status == 0 ==>
        (base <= metaBase && metaBase + 4096 * mframes == frameBase as nat &&
         frameBase + 4096 * nframes <= base + length
         <==> TouchesBoundary(base, length))
      ensures status == 0 && TouchesBoundary(base, length) ==>
        Sound() && fresh(meta) && abs == FrameColors.Init(nframes) && (Valid() <==> base != 0)
    {
      hide PageAlign, PageOf, TouchesBoundary, Inv, CountWhite;
      var first := PageAlign(base);
      var last := PageOf(Add(base, length));
      var pages := Sub(last, first) / 4096;
      hide Sub;
      if pages < 2 {
        return 1;
      }
      var npg := pages * 1024 / 1025;
      var mpg := pages - npg;
      SplitIsSafeAndOptimal(pages);
      CountedPagesExact(base, length);
      assert mpg * 1024 >= npg;   // the ASSERT of the source
      var basep := Add(first, mpg * 4096);
      LayoutInside(base, length, mpg, npg);
      if TouchesBoundary(base, length) { TableInside(base, length, mpg, npg); }
      hide Add, CountedPages;
      this.base, this.length, this.metaBase := base, length, first;
      this.mframes, this.frameBase := mpg, basep;
      this.nframes, this.nfree := npg, npg;
      meta := FillTable(basep, npg, mpg * 1024);
      abs := FrameColors.Init(npg);
      InitialTable(npg);
      return 0;
    }

    /** `find_seq_pages`: the address of the first entry of the lowest window of `n` white frames,
        or NULL. */
    method FindSeqPages(n: nat) returns (tp: Word)
      requires Sound()
      ensures tp == SeqPages(metaBase, abs.colors, n)
    {
      hide Inv, FrameColors.Init, PageOf, ColorOf, CountWhite;
      ghost var c := abs.colors;
      var cp, pp, seqPages := 0, 0, 0;
      if n <= nfree {
        while cp < nframes
          invariant 0 <= cp <= nframes && seqPages <= cp
          invariant n > 0 ==> seqPages < n
          invariant seqPages > 0 ==> pp == cp - seqPages && Window(c, pp, seqPages)
          invariant cp > seqPages ==> c[cp - seqPages - 1] != WHITE
          invariant n > 0 ==> forall j :: 0 <= j && j + n <= cp ==> !Window(c, j, n)
        {
          WordParts(meta[cp], FrameAddress(cp));
          if ColorOf(meta[cp]) == WHITE {
            if seqPages == 0 { pp := cp; }
            seqPages := seqPages + 1;
            if seqPages == n {
              assert Window(c, pp, n);
              FirstFitIsLowest(c, n, pp);
              return metaBase + 4 * pp;
            }
          } else {
            seqPages := 0;
          }
          cp := cp + 1;
        }
      } else {
        forall j: nat ensures !Window(c, j, n) {
          if Window(c, j, n) { WindowNeedsFree(c, j, n); }
        }
      }
      if n > 0 { FirstFitIsLowest(c, n, 0); }
      return 0;
    }

    lemma WordsArePages()
      requires Sound()
      ensures frameBase % 4096 == 0 && nframes <= meta.Length && metaBase + 4 * nframes <= frameBase
      ensures forall i :: 0 <= i < nframes ==> PageOf(meta[i]) == frameBase + 4096 * i
    {
      hide Inv, CountWhite, FrameColors.Init;
      forall i | 0 <= i < nframes ensures PageOf(meta[i]) == frameBase + 4096 * i {
        WordParts(meta[i], FrameAddress(i));
      }
    }

    /** `find_page_index`: the address of the entry of the frame containing an address, or NULL. */
    method FindPageIndex(mp: Word) returns (tp: Word)
      requires Sound()
      ensures tp == if Manages(mp) then metaBase + 4 * FrameIndex(mp) else 0
      ensures Manages(mp) ==> FrameIndex(mp) < nframes
    {
      hide Sound, PageOf, IndexFrom;
      WordsArePages();
      PageNumber(frameBase, mp);
      var page := PageOf(mp);
      var p := 0;
      while p < nframes
        invariant 0 <= p <= nframes
        invariant forall i :: 0 <= i < p ==> frameBase + 4096 * i != page
      {
        if PageOf(meta[p]) == page {
          return metaBase + 4 * p;
        }
        p := p + 1;
      }
      return 0;
    }

    function PageAt(i: nat): (page: Word)
      requires Valid() && i < nframes
      reads this, meta
      ensures page == FrameAddress(i) && page != 0
    {
      WordParts(meta[i], FrameAddress(i));
      PageOf(meta[i])
    }

    /** The choice of colour, from the words on either side of the window. */
    method ChooseMarker(i: nat, n: nat) returns (marker: nat)
      requires Valid() && n >= 1 && i + n <= nframes
      requires i > 0 ==> abs.colors[i - 1] != WHITE
      ensures marker == Marker(abs.colors, Extent(i, n))
    {
      if i > 0 { WordParts(meta[i - 1], FrameAddress(i - 1)); }
      if i + n < nframes { WordParts(meta[i + n], FrameAddress(i + n)); }
      if i == 0 && i + n == nframes {
        marker := RED;
      } else if i == 0 {
        marker := Shift(ColorOf(meta[i + n]));
      } else if i + n == nframes {
        marker := Shift(ColorOf(meta[i - 1]));
      } else {
        var right, left := ColorOf(meta[i + n]), ColorOf(meta[i - 1]);
        assert left != WHITE;               // the ASSERT of the source
        if right == left || right == WHITE {
          marker := Shift(left);
        } else {
          marker := Xor(left, right);
        }
      }
    }

    /** The drawing loop: `*(tp + k) |= marker`. */
    method PaintWords(i: nat, n: nat, marker: nat, ghost c: Colors)
      requires Layout() && |c| == nframes && Encodes(meta[..], frameBase, c)
      requires i + n <= nframes && Window(c, i, n) && 1 <= marker <= 3
      modifies meta
      ensures Encodes(meta[..], frameBase, Paint(c, Extent(i, n), marker))
    {
      for k := 0 to n
        invariant forall j :: 0 <= j < nframes ==>
          meta[j] == frameBase + 4096 * j + (if i <= j < i + k then marker else c[j])
      {
        assert meta[i + k] % 4096 == 0;     // white, as the ASSERT of the source demands
        OrFlags(meta[i + k], marker);
        meta[i + k] := Or(meta[i + k], marker);
      }
    }

    /** The words of the window take the colour of the new extent. */
    method ColorWindow(i: nat, n: nat)
      requires Valid() && FirstFit(abs.colors, n) == Some(i)
      modifies meta
      ensures Encodes(meta[..], frameBase, Step(abs, FrameColors.Alloc(n)).colors)
    {
      AllocPaints(abs, n);
      hide Inv, CountWhite, Step, FirstFit, FrameColors.Init, Encodes, Paint, Marker, Window;
      var marker := ChooseMarker(i, n);
      PaintWords(i, n, marker, abs.colors);
    }

    method TakeWindow(i: nat, n: nat)
      requires Valid() && FirstFit(abs.colors, n) == Some(i)
      modifies this`abs, this`nfree, meta
      ensures Valid() && nfree == old(nfree) - n
      ensures abs == Step(old(abs), FrameColors.Alloc(n))
    {
      hide Inv, CountWhite, Step, FirstFit, FrameColors.Init, Encodes;
      AllocStep(abs, n);
      ColorWindow(i, n);
      nfree := nfree - n;
      abs := Step(abs, FrameColors.Alloc(n));
    }

    /** `alloc_frames`: first fit, coloured so that the extent stays recoverable. A table at
        address 0 never allocates. */
    method Alloc(n: nat) returns (r: Option<Word>)
      requires Sound()
      modifies this, meta
      ensures Sound() && meta == old(meta)
      ensures metaBase == old(metaBase) && frameBase == old(frameBase) && nframes == old(nframes)
      ensures metaBase == 0 ==> r.None?
      ensures r.None? ==> abs == old(abs) && nfree == old(nfree)
      ensures metaBase != 0 ==> abs == Step(old(abs), FrameColors.Alloc(n))
      ensures metaBase != 0 ==> (r.None? <==> FirstFit(old(abs.colors), n).None?)
      ensures metaBase != 0 && n == 1 ==> (r.None? <==> old(nfree) == 0)
      ensures r.Some? ==>
        && FirstFit(old(abs.colors), n).Some?
        && r.value == FrameAddress(FirstFit(old(abs.colors), n).value) && r.value != 0
        && nfree == old(nfree) - n && 1 <= n
        && frameBase <= r.value && r.value + 4096 * n <= frameBase + 4096 * nframes
      ensures r.Some? ==> forall a :: r.value <= a < r.value + 4096 * n ==> !OwnedIn(old(abs), frameBase, a)
      ensures r.Some? ==> forall a ::
        OwnedIn(abs, frameBase, a) <==> OwnedIn(old(abs), frameBase, a) || r.value <= a < r.value + 4096 * n
    {
      OneFrameIffFree(abs.colors);
      if FirstFit(abs.colors, n).Some? { AllocOwnsBytes(abs, frameBase, n); }
      if metaBase == 0 { TableAtZeroNeverAllocates(nframes, n); }
      var tp := FindSeqPages(n);
      hide OwnedIn, Inv, Encodes, CountWhite, FirstFit, Step;
      if tp == 0 {
        return None;
      }
      var i := (tp - metaBase) / 4;
      TakeWindow(i, n);
      return Some(PageAt(i));
    }

    method ScanLeft(i: nat, marker: nat, ghost c: Colors) returns (edge: nat)
      requires Layout() && |c| == nframes && Encodes(meta[..], frameBase, c)
      requires i < nframes && marker == c[i]
      ensures edge == RunStart(c, i)
    {
      edge := i;
      var left := i - 1;
      while left >= 0
        invariant -1 <= left == edge - 1
        invariant edge <= i && c[edge] == marker && RunStart(c, i) == RunStart(c, edge)
        decreases left
      {
        WordParts(meta[left], FrameAddress(left));
        if ColorOf(meta[left]) != marker { break; }
        edge := left;
        left := left - 1;
      }
    }

    method ScanRight(i: nat, marker: nat, ghost c: Colors) returns (edge: nat)
      requires Layout() && |c| == nframes && Encodes(meta[..], frameBase, c)
      requires i < nframes && marker == c[i]
      ensures edge + 1 == RunEnd(c, i)
    {
      edge := i;
      var right := i;
      while right < nframes
        invariant i <= right <= nframes && edge == (if right == i then i else right - 1)
        invariant c[edge] == marker && RunEnd(c, i) == RunEnd(c, edge)
      {
        WordParts(meta[right], FrameAddress(right));
        if ColorOf(meta[right]) != marker { break; }
        edge := right;
        right := right + 1;
      }
    }

    /** The erasing loop: `*left = PGCOLOR_RESET(*left)`. */
    method WhitenWords(left: nat, right: nat, ghost c: Colors)
      requires Layout() && |c| == nframes && Encodes(meta[..], frameBase, c)
      requires left <= right < nframes
      modifies meta
      ensures Encodes(meta[..], frameBase, Paint(c, Extent(left, right - left + 1), WHITE))
    {
      var k := left;
      while k <= right
        invariant left <= k <= right + 1
        invariant forall j :: 0 <= j < nframes ==>
          meta[j] == frameBase + 4096 * j + (if left <= j < k then WHITE else c[j])
      {
        WordParts(meta[k], FrameAddress(k));
        meta[k] := PageOf(meta[k]);
        k := k + 1;
      }
    }

    /** The words of the run around frame `i` turn white; `freed` of them. */
    method WhitenRun(i: nat, marker: nat) returns (freed: nat)
      requires Valid() && i < nframes && marker == abs.colors[i] != WHITE
      modifies meta
      ensures Encodes(meta[..], frameBase, Step(abs, FrameColors.Free(i)).colors)
      ensures CountWhite(Step(abs, FrameColors.Free(i)).colors) == CountWhite(abs.colors) + freed
    {
      FreePaints(abs, i);
      hide Inv, CountWhite, Step, FrameColors.Init, Encodes, Paint, RunAround, RunStart, RunEnd;
      var left := ScanLeft(i, marker, abs.colors);
      var right := ScanRight(i, marker, abs.colors);
      freed := right - left + 1;
      WhitenWords(left, right, abs.colors);
    }

    method ReleaseRun(i: nat, marker: nat)
      requires Valid() && i < nframes && marker == abs.colors[i] != WHITE
      modifies this`abs, this`nfree, meta
      ensures Valid()
      ensures abs == Step(old(abs), FrameColors.Free(i))
    {
      hide Inv, CountWhite, Step, FrameColors.Init, Encodes;
      FreeStep(abs, i);
      var freed := WhitenRun(i, marker);
      nfree := nfree + freed;
      abs := Step(abs, FrameColors.Free(i));
    }

    /** `free_frames` once the entry and its colour are known. */
    method FreeEntry(i: nat, marker: nat) returns (status: int)
      requires Sound() && i < nframes && marker == abs.colors[i]
      modifies this`abs, this`nfree, meta
      ensures Sound()
      ensures status == if LiveAt(old(abs), i) then 0 else 1
      ensures abs == if status == 0 then Step(old(abs), FrameColors.Free(i)) else old(abs)
    {
      ColoredIffLive(abs, i);
      SetUpIdle(nframes);
      hide Inv, CountWhite, LiveAt, Step, Encodes, FrameColors.Init;
      if marker == WHITE {
        return 1;
      }
      ReleaseRun(i, marker);
      return 0;
    }

    method EntryColor(i: nat) returns (color: nat)
      requires Sound() && i < nframes
      ensures color == abs.colors[i]
    {
      WordParts(meta[i], FrameAddress(i));
      color := ColorOf(meta[i]);
    }

    /** `free_frames`: 1 and no change for an address outside the managed frames or in a free
        frame, otherwise 0 and the whole extent around the address turns white. For an address
        outside, the colour is read from the word at address 0 and not used. */
    method Free(mp: Word, wordAtZero: Word) returns (status: int)
      requires Sound()
      modifies this, meta
      ensures Sound() && meta == old(meta)
      ensures metaBase == old(metaBase) && frameBase == old(frameBase) && nframes == old(nframes)
      ensures status == 0 || status == 1
      ensures status == 0 <==> Manages(mp) && LiveAt(old(abs), FrameIndex(mp))
      ensures status == 1 ==> abs == old(abs)
      ensures status == 0 ==> abs == Step(old(abs), FrameColors.Free(FrameIndex(mp)))
    {
      SetUpIdle(nframes);
      hide Inv, CountWhite, LiveAt, Step, Encodes, FrameColors.Init, IndexFrom;
      var tp := FindPageIndex(mp);
      var i := (tp - metaBase) / 4;
      var marker := ColorOf(wordAtZero);
      if tp != 0 { marker := EntryColor(i); }
      if tp == 0 {
        return 1;
      }
      status := FreeEntry(i, marker);
    }
  }
}
