/** Bitwise operators of C on unsigned words, defined bit by bit on natural numbers, and the
    arithmetic meaning of the masks the kernel uses. */
module Bits {
  const WORD_SIZE: nat := 0x1_0000_0000

  /** A 32-bit unsigned word (`_u32`, `uint_t`, `addr_t`). */
  type Word = w: nat | w < 0x1_0000_0000

  /** Addition and subtraction of `_u32`, wrapping around at 2^32. */
  function Add(a: Word, b: Word): Word {
    if a + b < WORD_SIZE then a + b else a + b - WORD_SIZE
  }

  function Sub(a: Word, b: Word): Word {
    if b <= a then a - b else a - b + WORD_SIZE
  }

  function And(a: nat, b: nat): nat {
    if a == 0 || b == 0 then 0
    else 2 * And(a / 2, b / 2) + (if a % 2 == 1 && b % 2 == 1 then 1 else 0)
  }

  function Or(a: nat, b: nat): nat {
    if a == 0 then b
    else if b == 0 then a
    else 2 * Or(a / 2, b / 2) + (if a % 2 == 1 || b % 2 == 1 then 1 else 0)
  }

  function Xor(a: nat, b: nat): nat {
    if a == 0 then b
    else if b == 0 then a
    else 2 * Xor(a / 2, b / 2) + (if a % 2 == b % 2 then 0 else 1)
  }

  /** `m << k`, `x >> k`, the low k bits of `x`, and k one-bits, each one bit at a time. */
  function Shl(m: nat, k: nat): nat {
    if k == 0 then m else 2 * Shl(m, k - 1)
  }

  function Shr(x: nat, k: nat): nat {
    if k == 0 then x else Shr(x / 2, k - 1)
  }

  function Low(x: nat, k: nat): nat {
    if k == 0 then 0 else 2 * Low(x / 2, k - 1) + x % 2
  }

  function Ones(k: nat): nat {
    if k == 0 then 0 else 2 * Ones(k - 1) + 1
  }

  lemma {:induction false} LowZero(k: nat)
    ensures Low(0, k) == 0
  {
    if k != 0 { LowZero(k - 1); }
  }

  /** Masking with k ones keeps the low k bits. */
  lemma {:induction false} AndLow(x: nat, k: nat)
    ensures And(x, Ones(k)) == Low(x, k)
  {
    if k != 0 {
      AndLow(x / 2, k - 1);
      if x == 0 { LowZero(k); }
    }
  }

  /** Masking with a mask whose low k bits are clear acts on the high part alone. */
  lemma {:induction false} AndHigh(x: nat, m: nat, k: nat)
    ensures And(x, Shl(m, k)) == Shl(And(Shr(x, k), m), k)
  {
    if k != 0 {
      AndHigh(x / 2, m, k - 1);
      assert And(x, Shl(m, k)) == 2 * And(x / 2, Shl(m, k - 1));
    }
  }

  /** Or-ing a k-bit value changes the low k bits only. */
  lemma {:induction false} OrLow(x: nat, m: nat, k: nat)
    requires m <= Ones(k)
    ensures Shr(Or(x, m), k) == Shr(x, k)
    ensures Low(Or(x, m), k) == Or(Low(x, k), m)
  {
    if k != 0 {
      OrLow(x / 2, m / 2, k - 1);
      assert Or(x, m) / 2 == Or(x / 2, m / 2);
      var y := Low(x, k);
      assert y / 2 == Low(x / 2, k - 1) && y % 2 == x % 2;
      assert Or(y, m) / 2 == Or(y / 2, m / 2);
    }
  }

  lemma {:induction false} SplitBits(x: nat, k: nat)
    ensures x == Shl(Shr(x, k), k) + Low(x, k)
    ensures Low(x, k) <= Ones(k)
  {
    if k != 0 { SplitBits(x / 2, k - 1); }
  }

  lemma {:induction false} ShlByFour(m: nat, k: nat)
    ensures Shl(m, k + 4) == 16 * Shl(m, k)
  {
    assert Shl(m, k + 2) == 4 * Shl(m, k);
    assert Shl(m, k + 4) == 4 * Shl(m, k + 2);
  }

  lemma {:induction false} OnesByFour(k: nat)
    ensures Ones(k + 4) == 16 * Ones(k) + 15
  {
    assert Ones(k + 2) == 4 * Ones(k) + 3;
    assert Ones(k + 4) == 4 * Ones(k + 2) + 3;
  }

  /** Twelve bits are the offset within a page. */
  lemma {:induction false} TwelveBits(x: nat)
    ensures Ones(12) == 0xFFF
    ensures Shl(x, 12) == 4096 * x && Shr(x, 12) == x / 4096 && Low(x, 12) == x % 4096
  {
    OnesByFour(0); OnesByFour(4); OnesByFour(8);
    ShlByFour(x, 0); ShlByFour(x, 4); ShlByFour(x, 8);
    var q := Shr(x, 12);
    ShlByFour(q, 0); ShlByFour(q, 4); ShlByFour(q, 8);
    SplitBits(x, 12);
  }

  /** Ten bits index a page directory or a page table. */
  lemma {:induction false} TenBits(x: nat)
    ensures Ones(10) == 0x3FF
    ensures Shr(x, 10) == x / 1024 && Low(x, 10) == x % 1024
  {
    OnesByFour(0); OnesByFour(4);
    assert Ones(10) == 4 * Ones(8) + 3;
    var q := Shr(x, 10);
    ShlByFour(q, 0); ShlByFour(q, 4);
    assert Shl(q, 10) == 4 * Shl(q, 8);
    SplitBits(x, 10);
  }

  /** Eight bits carry the colour of a frame. */
  lemma {:induction false} EightBits(x: nat)
    ensures Ones(8) == 0xFF && Low(x, 8) == x % 256
  {
    OnesByFour(0); OnesByFour(4);
    var q := Shr(x, 8);
    ShlByFour(q, 0); ShlByFour(q, 4);
    SplitBits(x, 8);
  }

  lemma {:induction false} FitsInOnes(x: nat, k: nat)
    requires x <= Ones(k)
    ensures Low(x, k) == x
  {
    if k != 0 { FitsInOnes(x / 2, k - 1); }
  }

  const PAGE_MASK: nat := 0xFFFF_F000

  lemma {:induction false} AndCommutes(a: nat, b: nat)
    ensures And(a, b) == And(b, a)
  {
    if a != 0 && b != 0 { AndCommutes(a / 2, b / 2); }
  }

  lemma {:induction false} PageMaskMeaning(x: nat)
    requires x < WORD_SIZE
    ensures And(PAGE_MASK, x) == x - x % 4096
  {
    OnesByFour(0); OnesByFour(4); OnesByFour(8); OnesByFour(12); OnesByFour(16);
    AndCommutes(PAGE_MASK, x);
    var y := Shr(x, 12);
    TwelveBits(x);
    TwelveBits(Ones(20));
    AndHigh(x, Ones(20), 12);
    AndLow(y, 20);
    FitsInOnes(y, 20);
    TwelveBits(y);
  }

  /** `PAGE_MASK & x`: the page of an address or of a table word. */
  function PageOf(x: Word): (r: Word)
    ensures r == x - x % 4096
  {
    PageMaskMeaning(x);
    And(PAGE_MASK, x)
  }

  /** The low 12 bits, `x & ~PAGE_MASK`. */
  function OffsetOf(x: Word): (r: nat)
    ensures r == x % 4096
  {
    TwelveBits(x);
    AndLow(x, 12);
    And(x, 0xFFF)
  }

  lemma {:induction false} RoundUp(x: nat, y: nat, r: nat)
    requires x < WORD_SIZE && r == y - y % 4096
    requires y == if x + 4095 < WORD_SIZE then x + 4095 else x + 4095 - WORD_SIZE
    ensures r % 4096 == 0
    ensures x <= 0xFFFF_F000 ==> x <= r < x + 4096
    ensures x > 0xFFFF_F000 ==> r == 0
  {
    assert r == 4096 * (y / 4096);
  }

  /** `PAGE_ALIGN(x)`: round up to a page, with 32-bit wrap-around. */
  function PageAlign(x: Word): (r: Word)
    ensures r % 4096 == 0
    ensures x <= 0xFFFF_F000 ==> x <= r < x + 4096
    ensures x > 0xFFFF_F000 ==> r == 0
  {
    RoundUp(x, Add(x, 4095), PageOf(Add(x, 4095)));
    PageOf(Add(x, 4095))
  }

  lemma {:induction false} OrFlagsSplit(x: nat, m: nat, k: nat)
    requires k == 12 && m <= Ones(k)
    ensures Or(x, m) / 4096 == x / 4096
    ensures Or(x, m) % 4096 == Or(x % 4096, m)
  {
    OrLow(x, m, k);
    TwelveBits(x);
    TwelveBits(Or(x, m));
  }

  lemma {:induction false} SamePage(x: nat, y: nat)
    requires x / 4096 == y / 4096
    ensures x - x % 4096 == y - y % 4096
    ensures x < WORD_SIZE ==> y < WORD_SIZE
  {
  }

  /** Flags below 4096 join a word without touching its page. */
  lemma {:induction false} OrFlags(x: Word, m: nat)
    requires m < 4096
    ensures Or(x, m) < WORD_SIZE
    ensures Or(x, m) - Or(x, m) % 4096 == x - x % 4096
    ensures x % 4096 == 0 ==> Or(x, m) == x + m
  {
    TwelveBits(m);
    OrFlagsSplit(x, m, 12);
    SamePage(x, Or(x, m));
  }
}
