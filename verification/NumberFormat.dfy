/** Integer formatting of src/printk.c: `number` and `skip_atoi`, against a rendering defined by
    what it must look like, and a parser that reads it back. */
module NumberFormat {
  import opened Wrappers
  import opened Division

  /** The flag word of `number`, one boolean per flag. */
  datatype Flags = Flags(zeropad: bool, sign: bool, plus: bool, space: bool, left: bool, special: bool, small: bool)

  type Int32 = x: int | -0x8000_0000 <= x < 0x8000_0000

  /** Two's complement reading of the low 32 bits. */
  function Wrap(x: int): Int32 { (x + 0x8000_0000) % 0x1_0000_0000 - 0x8000_0000 }

  lemma {:induction false} WrapPeriod(x: int, k: int)
    ensures Wrap(x + 0x1_0000_0000 * k) == Wrap(x)
  {
  }

  lemma {:induction false} WrapId(x: Int32)
    ensures Wrap(x) == x
  {
  }

  lemma {:induction false} WrapMinus(x: int, k: int)
    ensures Wrap(Wrap(x) - k) == Wrap(x - k)
  {
    var q := (x + 0x8000_0000) / 0x1_0000_0000;
    assert Wrap(x) == x - 0x1_0000_0000 * q;
    WrapPeriod(x - k, -q);
  }

  function Unsigned(x: Int32): (u: nat)
    ensures u < 0x1_0000_0000
  {
    if x < 0 then x + 0x1_0000_0000 else x
  }

  predicate Negative(num: Int32, f: Flags) { f.sign && num < 0 }

  /** The word whose digits are printed; -num of the least int is that word itself. */
  function Magnitude(num: Int32, f: Flags): (m: nat)
    ensures m < 0x1_0000_0000
  {
    if Negative(num, f) then Unsigned(Wrap(-(num as int))) else Unsigned(num)
  }

  // -------------------------------------------------------------------------------- digits

  function DigitChar(d: nat, small: bool): char
    requires d < 36
  {
    if d < 10 then '0' + d as char else if small then 'a' + (d - 10) as char else 'A' + (d - 10) as char
  }

  function DigitValue(c: char): int {
    if '0' <= c <= '9' then c as int - '0' as int
    else if 'a' <= c <= 'z' then c as int - 'a' as int + 10
    else c as int - 'A' as int + 10
  }

  lemma {:induction false} DigitRoundTrip(d: nat, small: bool)
    requires d < 36
    ensures var c := DigitChar(d, small); DigitValue(c) == d && c != ' ' && c != '-' && c != '+'
    ensures d < 10 <==> '0' <= DigitChar(d, small) <= '9'
  {
  }

  predicate GoodBase(base: int) { 2 <= base <= 36 }

  lemma {:induction false} Shrinks(n: nat, base: nat)
    requires GoodBase(base) && n > 0
    ensures 0 <= n / base < n && n == (n / base) * base + n % base && 0 <= n % base < base && 2 * (n / base) <= n
  {
    var q, r := n / base, n % base;
    assert n == base * q + r && 0 <= r < base;
    Multiples(q, base);
    assert base * q == q * base;
  }

  /** The digits of `n` without leading zeros, none for 0. */
  function Digits(n: nat, base: nat, small: bool): string
    requires GoodBase(base)
  {
    if n == 0 then [] else Shrinks(n, base); Digits(n / base, base, small) + [DigitChar(n % base, small)]
  }

  function Numeral(n: nat, base: nat, small: bool): string
    requires GoodBase(base)
  {
    if n == 0 then "0" else Digits(n, base, small)
  }

  /** Positional value of a digit string. */
  function Value(s: string, base: nat): int {
    if s == [] then 0 else Value(s[..|s| - 1], base) * base + DigitValue(s[|s| - 1])
  }

  lemma {:induction false} ValueSnoc(s: string, c: char, base: nat)
    ensures Value(s + [c], base) == Value(s, base) * base + DigitValue(c)
  {
    assert (s + [c])[..|s|] == s;
  }

  /** The digits decode to the number. */
  lemma {:induction false} DigitsDecode(n: nat, base: nat, small: bool)
    requires GoodBase(base)
    ensures Value(Digits(n, base, small), base) == n
  {
    if n != 0 {
      Shrinks(n, base);
      DigitsDecode(n / base, base, small);
      DigitRoundTrip(n % base, small);
      var d, c := Digits(n / base, base, small), DigitChar(n % base, small);
      ValueSnoc(d, c, base);
      assert Digits(n, base, small) == d + [c];
      hide Value, Digits, DigitChar, DigitValue;
      assert Value(d, base) == n / base && DigitValue(c) == n % base;
    }
  }

  function TwoTo(k: nat): nat { if k == 0 then 1 else 2 * TwoTo(k - 1) }

  /** A number below 2^k has at most k digits. */
  lemma {:induction false} FewDigits(n: nat, base: nat, small: bool, k: nat)
    requires GoodBase(base) && n < TwoTo(k)
    ensures |Digits(n, base, small)| <= k
  {
    if n != 0 {
      Shrinks(n, base);
      FewDigits(n / base, base, small, k - 1);
    }
  }

  lemma {:induction false} WordIsTwoTo32()
    ensures TwoTo(32) == 0x1_0000_0000
  {
    assert TwoTo(4) == 16;
    assert TwoTo(8) == 256;
    assert TwoTo(12) == 4096;
    assert TwoTo(16) == 65536;
    assert TwoTo(20) == 1048576;
    assert TwoTo(24) == 16777216;
    assert TwoTo(28) == 268435456;
  }

  /** A digit of the base in the letters asked for: small ones exactly with SMALL. */
  predicate DigitOf(c: char, base: nat, small: bool) {
    && ('0' <= c <= '9' || (small && 'a' <= c <= 'z') || (!small && 'A' <= c <= 'Z'))
    && 0 <= DigitValue(c) < base
  }

  lemma {:induction false} DigitIs(d: nat, base: nat, small: bool)
    requires GoodBase(base) && d < base
    ensures DigitOf(DigitChar(d, small), base, small) && (DigitChar(d, small) == '0' <==> d == 0)
  {
  }

  lemma {:induction false} DigitBack(c: char, base: nat, small: bool)
    requires GoodBase(base) && DigitOf(c, base, small)
    ensures DigitChar(DigitValue(c), small) == c && (c == '0' <==> DigitValue(c) == 0)
  {
  }

  /** A numeral is made of digits in the letters asked for and does not start with 0 unless it is 0. */
  predicate IsNumeral(s: string, base: nat, small: bool) {
    s != [] && (s == "0" || s[0] != '0') && forall i :: 0 <= i < |s| ==> DigitOf(s[i], base, small)
  }

  lemma {:induction false} DigitsShape(n: nat, base: nat, small: bool)
    requires GoodBase(base)
    ensures var s := Digits(n, base, small);
      (n > 0 ==> s != [] && s[0] != '0') && forall i :: 0 <= i < |s| ==> DigitOf(s[i], base, small)
  {
    if n > 0 {
      Shrinks(n, base);
      DigitsShape(n / base, base, small);
      DigitIs(n % base, base, small);
      hide DigitOf, DigitChar;
      if n / base == 0 { assert n % base == n; }
    }
  }

  lemma {:induction false} NumeralShape(n: nat, base: nat, small: bool)
    requires GoodBase(base)
    ensures IsNumeral(Numeral(n, base, small), base, small)
  {
    DigitsShape(n, base, small);
    DigitIs(0, base, small);
    hide Digits;
  }

  lemma {:induction false} QuotientAndRest(q: nat, base: nat, d: nat)
    requires GoodBase(base) && d < base
    ensures (q * base + d) / base == q && (q * base + d) % base == d
  {
    var n := q * base + d;
    if n > 0 { Shrinks(n, base); }
    SameQuotient(q, d, n / base, n % base, base);
  }

  /** Digits without a leading 0 are the digits of their value. */
  lemma {:induction false} DigitsUnique(s: string, base: nat, small: bool)
    requires GoodBase(base) && (s != [] ==> s[0] != '0') && forall i :: 0 <= i < |s| ==> DigitOf(s[i], base, small)
    ensures Value(s, base) >= 0 && (s != [] ==> Value(s, base) > 0) && Digits(Value(s, base), base, small) == s
  {
    if s != [] {
      var t, c := s[..|s| - 1], s[|s| - 1];
      DigitsUnique(t, base, small);
      DigitBack(c, base, small);
      var q, d := Value(t, base), DigitValue(c);
      assert Value(s, base) == q * base + d;
      hide DigitOf, DigitChar, DigitValue, Value;
      if t != [] { Multiples(q, base); } else { assert q == 0 && q * base == 0; }
      QuotientAndRest(q, base, d);
      assert s == t + [c];
    }
  }

  /** Every numeral is the numeral of its value: with the round trip of `NumeralValue` and
      `NumeralShape`, printing is the one inverse of reading. */
  lemma {:induction false} NumeralUnique(s: string, base: nat, small: bool)
    requires GoodBase(base) && IsNumeral(s, base, small)
    ensures Value(s, base) >= 0 && Numeral(Value(s, base), base, small) == s
  {
    if s == "0" {
      assert s[..0] == [] && Value(s, base) == Value(s[..0], base) * base + 0;
    } else {
      DigitsUnique(s, base, small);
    }
  }

  // ----------------------------------------------------------------------------- rendering

  function Max(a: int, b: int): int { if a < b then b else a }

  function Repeat(c: char, k: int): (s: string)
    ensures |s| == Max(k, 0) && forall i :: 0 <= i < |s| ==> s[i] == c
  {
    if k <= 0 then [] else seq(k, _ => c)
  }

  function SignPart(num: Int32, f: Flags): string {
    if Negative(num, f) then "-" else if f.plus then "+" else if f.space then " " else ""
  }

  function PrefixPart(base: int, f: Flags): string {
    if !f.special then "" else if base == 8 then "0" else if base == 16 then (if f.small then "0x" else "0X") else ""
  }

  /** Padding of `pad` characters where the flags ask for it. */
  function Layout(front: string, digits: string, pad: int, f: Flags): string {
    if f.left then front + digits + Repeat(' ', pad)
    else if f.zeropad then front + Repeat('0', pad) + digits
    else Repeat(' ', pad) + front + digits
  }

  /** How the number must look: the numeral filled up with zeros to the precision, after sign and
      prefix; then padded to the width by spaces behind (LEFT), zeros between prefix and numeral
      (ZEROPAD), or spaces in front. */
  function Render(num: Int32, base: int, width: int, precision: int, f: Flags): string
    requires GoodBase(base)
  {
    var numeral := Numeral(Magnitude(num, f), base, f.small);
    var zeros := Repeat('0', precision - |numeral|);
    var front := SignPart(num, f) + PrefixPart(base, f);
    Layout(front, zeros + numeral, width - |front| - |zeros| - |numeral|, f)
  }

  /** The length is the width or what the parts need, whichever is more. */
  lemma {:induction false} RenderLength(num: Int32, base: int, width: int, precision: int, f: Flags)
    requires GoodBase(base)
    ensures |Render(num, base, width, precision, f)| ==
      Max(width,
          |SignPart(num, f)| + |PrefixPart(base, f)| + Max(|Numeral(Magnitude(num, f), base, f.small)|, precision))
    ensures |Numeral(Magnitude(num, f), base, f.small)| <= 32
  {
    WordIsTwoTo32();
    FewDigits(Magnitude(num, f), base, f.small, 32);
  }

  lemma {:induction false} LayoutPieces(sign: string, prefix: string, fill: nat, numeral: string, pad: int, f: Flags)
    ensures var p := Max(pad, 0);
      var before := if f.left || f.zeropad then 0 else p;
      var zeros := if !f.left && f.zeropad then fill + p else fill;
      var after := if f.left then p else 0;
      Layout(sign + prefix, Repeat('0', fill) + numeral, pad, f) ==
        Repeat(' ', before) + sign + prefix + Repeat('0', zeros) + numeral + Repeat(' ', after)
  {
    var p := Max(pad, 0);
    assert Repeat(' ', 0) == [] && Repeat(' ', pad) == Repeat(' ', p) && Repeat('0', pad) == Repeat('0', p);
    assert Repeat('0', p) + Repeat('0', fill) == Repeat('0', fill + p);
  }

  lemma {:induction false} FrontPieces(num: Int32, base: int, f: Flags)
    ensures SignPart(num, f) == if f.sign && num < 0 then "-" else if f.plus then "+" else if f.space then " " else ""
    ensures PrefixPart(base, f) ==
      if f.special && base == 8 then "0"
      else if f.special && base == 16 && f.small then "0x"
      else if f.special && base == 16 then "0X" else ""
  {
  }

  lemma {:induction false} SameFill(a: int, b: int)
    requires a == Max(b, 0)
    ensures Repeat('0', a) == Repeat('0', b)
  {
  }

  /** The rendering piece by piece: spaces in front, the sign, the prefix, zeros, the numeral, spaces
      behind. A negative number has '-', any other '+' with PLUS or else ' ' with SPACE; SPECIAL puts
      0 before octal and 0x or 0X before hexadecimal; LEFT pads behind, otherwise ZEROPAD pads with
      zeros after the prefix, otherwise spaces come first. */
  lemma {:induction false} RenderPieces(num: Int32, base: int, width: int, precision: int, f: Flags)
    requires GoodBase(base)
    ensures var numeral := Numeral(Magnitude(num, f), base, f.small);
      var sign := if f.sign && num < 0 then "-" else if f.plus then "+" else if f.space then " " else "";
      var prefix := if f.special && base == 8 then "0"
                    else if f.special && base == 16 && f.small then "0x"
                    else if f.special && base == 16 then "0X" else "";
      var fill := Max(precision - |numeral|, 0);
      var pad := Max(width - |sign| - |prefix| - fill - |numeral|, 0);
      var before := if f.left || f.zeropad then 0 else pad;
      var zeros := if !f.left && f.zeropad then fill + pad else fill;
      var after := if f.left then pad else 0;
      Render(num, base, width, precision, f) ==
        Repeat(' ', before) + sign + prefix + Repeat('0', zeros) + numeral + Repeat(' ', after)
  {
    FrontPieces(num, base, f);
    hide Numeral, Magnitude, SignPart, PrefixPart, Layout, Repeat;
    var numeral := Numeral(Magnitude(num, f), base, f.small);
    var sign, prefix := SignPart(num, f), PrefixPart(base, f);
    var fill := Max(precision - |numeral|, 0);
    SameFill(fill, precision - |numeral|);
    var pad := width - |sign + prefix| - fill - |numeral|;
    assert Render(num, base, width, precision, f) == Layout(sign + prefix, Repeat('0', fill) + numeral, pad, f);
    LayoutPieces(sign, prefix, fill, numeral, pad, f);
    hide Render;
  }

  // -------------------------------------------------------------------- 32-bit field widths

  /** What `while (size-- > 0)` leaves in `size`. */
  function After(size: Int32): Int32 { if size > 0 then -1 else Wrap(size - 1) }

  /** What the three padding loops write around the text: each looks at `size` again, and the
      decrement of the least int wraps round. */
  function Padded(front: string, digits: string, size: Int32, f: Flags): string {
    if f.left then front + digits + Repeat(' ', size)
    else if f.zeropad then front + Repeat('0', size) + digits + Repeat(' ', After(size))
    else Repeat(' ', size) + front + Repeat(' ', After(size)) + digits + Repeat(' ', After(After(size)))
  }

  /** Characters to pad, before reduction to 32 bits. */
  function PadOf(num: Int32, base: int, width: Int32, precision: Int32, f: Flags): int
    requires GoodBase(base)
  {
    width - |SignPart(num, f)| - |PrefixPart(base, f)| - Max(precision, |Numeral(Magnitude(num, f), base, f.small)|)
  }

  /** What `number` writes. */
  function Written(num: Int32, base: int, width: Int32, precision: Int32, f: Flags): string
    requires GoodBase(base)
  {
    var numeral := Numeral(Magnitude(num, f), base, f.small);
    Padded(SignPart(num, f) + PrefixPart(base, f), Repeat('0', precision - |numeral|) + numeral,
           Wrap(PadOf(num, base, width, precision, f)), f)
  }

  /** The padding loops that run before the last one. */
  function EarlierLoops(f: Flags): nat { if f.left then 0 else if f.zeropad then 1 else 2 }

  /** The padding is representable, and stays so while the loops count it down; far enough below,
      the wrapped value is again no more than 0. */
  predicate Fits(pad: int, f: Flags) { pad >= -0x8000_0000 + EarlierLoops(f) || pad <= -0x1_0000_0000 }

  lemma {:induction false} WrapNear(x: int)
    requires -0x1_8000_0000 <= x < 0x8000_0000
    ensures Wrap(x) == if x < -0x8000_0000 then x + 0x1_0000_0000 else x
  {
  }

  lemma {:induction false} FitsMeans(pad: int, f: Flags)
    requires -0x1_0000_0002 <= pad < 0x8000_0000
    ensures Max(Wrap(pad), 0) >= Max(pad, 0)
    ensures var s := Wrap(pad);
      Fits(pad, f) <==>
      && Max(s, 0) == Max(pad, 0)
      && (!f.left ==> After(s) <= 0)
      && (!f.left && !f.zeropad ==> After(After(s)) <= 0)
  {
    hide Wrap;
    WrapNear(pad);
    WrapNear(Wrap(pad) - 1);
    WrapNear(After(Wrap(pad)) - 1);
  }

  lemma {:induction false} PaddedIff(front: string, digits: string, pad: int, f: Flags)
    requires -0x1_0000_0002 <= pad < 0x8000_0000
    ensures Padded(front, digits, Wrap(pad), f) == Layout(front, digits, pad, f) <==> Fits(pad, f)
  {
    FitsMeans(pad, f);
    var s := Wrap(pad);
    hide Wrap, Fits, After;
    var x, y := Padded(front, digits, s, f), Layout(front, digits, pad, f);
    assert |y| == |front| + |digits| + Max(pad, 0);
    if Fits(pad, f) {
      assert Repeat(' ', s) == Repeat(' ', pad) && Repeat('0', s) == Repeat('0', pad);
      if f.left {
        assert x == y;
      } else {
        assert Repeat(' ', After(s)) == [];
        assert !f.zeropad ==> Repeat(' ', After(After(s))) == [];
        assert x == y;
      }
    } else {
      assert |x| > |y|;
    }
  }

  lemma {:induction false} PadBounds(num: Int32, base: int, width: Int32, precision: Int32, f: Flags)
    requires GoodBase(base)
    ensures -0x1_0000_0002 <= PadOf(num, base, width, precision, f) < 0x8000_0000
  {
    hide Numeral, Magnitude;
    RenderLength(num, base, width, precision, f);
    hide Render;
  }

  /** Main result on field widths: the text is as it must look exactly when the padding fits. */
  lemma {:induction false} WrittenIsRenderIff(num: Int32, base: int, width: Int32, precision: Int32, f: Flags)
    requires GoodBase(base)
    ensures Written(num, base, width, precision, f) == Render(num, base, width, precision, f)
      <==> Fits(PadOf(num, base, width, precision, f), f)
  {
    hide Padded, Layout, Fits, Wrap, Numeral, Magnitude, SignPart, PrefixPart;
    var pad := PadOf(num, base, width, precision, f);
    PadBounds(num, base, width, precision, f);
    var numeral := Numeral(Magnitude(num, f), base, f.small);
    PaddedIff(SignPart(num, f) + PrefixPart(base, f), Repeat('0', precision - |numeral|) + numeral, pad, f);
  }

  /** A field as narrow as an int can say is padded with 2^31 - 1 spaces. */
  lemma {:induction false} LeastWidthPads(f: Flags)
    requires f == Flags(false, false, false, false, false, false, false)
    ensures !Fits(PadOf(5, 10, -0x8000_0000, -1, f), f)
    ensures |Written(5, 10, -0x8000_0000, -1, f)| == 0x8000_0000 && |Render(5, 10, -0x8000_0000, -1, f)| == 1
  {
    assert Digits(5, 10, false) == Digits(0, 10, false) + ['5'];
    assert Numeral(5, 10, false) == "5";
    RenderLength(5, 10, -0x8000_0000, -1, f);
  }

  // --------------------------------------------------------------------------- reading back

  function TrimLeft(s: string): string { if s != [] && s[0] == ' ' then TrimLeft(s[1..]) else s }

  function TrimRight(s: string): string {
    if s != [] && s[|s| - 1] == ' ' then TrimRight(s[..|s| - 1]) else s
  }

  /** Read a rendered number: spaces around it, then a sign, then the hexadecimal prefix. */
  function Parse(s: string, base: nat, special: bool): int {
    var t := TrimRight(TrimLeft(s));
    var negative := t != [] && t[0] == '-';
    var u := if t != [] && (t[0] == '-' || t[0] == '+') then t[1..] else t;
    var v := if special && base == 16 && |u| >= 2 then u[2..] else u;
    if negative then -Value(v, base) else Value(v, base)
  }

  lemma {:induction false} TrimLeftSpaces(k: int, s: string)
    requires s == [] || s[0] != ' '
    ensures TrimLeft(Repeat(' ', k) + s) == s
  {
    if k > 0 {
      assert (Repeat(' ', k) + s)[1..] == Repeat(' ', k - 1) + s;
      TrimLeftSpaces(k - 1, s);
    }
  }

  lemma {:induction false} TrimRightSpaces(k: int, s: string)
    requires s == [] || s[|s| - 1] != ' '
    ensures TrimRight(s + Repeat(' ', k)) == s
  {
    if k > 0 {
      var t := s + Repeat(' ', k);
      assert t[..|t| - 1] == s + Repeat(' ', k - 1);
      TrimRightSpaces(k - 1, s);
    } else {
      assert s + Repeat(' ', k) == s;
    }
  }

  /** Leading zeros do not change the value. */
  lemma {:induction false} LeadingZeros(k: int, s: string, base: nat)
    ensures Value(Repeat('0', k) + s, base) == Value(s, base)
    decreases Max(k, 0) + |s|
  {
    var t := Repeat('0', k) + s;
    if s != [] {
      assert t[..|t| - 1] == Repeat('0', k) + s[..|s| - 1];
      LeadingZeros(k, s[..|s| - 1], base);
    } else if k > 0 {
      assert t[..|t| - 1] == Repeat('0', k - 1) + s;
      LeadingZeros(k - 1, s, base);
    }
  }

  /** A character a numeral can contain. */
  predicate Plain(c: char) { c != ' ' && c != '-' && c != '+' }

  lemma {:induction false} NumeralPlain(n: nat, base: nat, small: bool)
    requires GoodBase(base)
    ensures n > 0 ==> Digits(n, base, small) != []
    ensures forall i :: 0 <= i < |Digits(n, base, small)| ==> Plain(Digits(n, base, small)[i])
  {
    if n != 0 {
      Shrinks(n, base);
      DigitRoundTrip(n % base, small);
      NumeralPlain(n / base, base, small);
    }
  }

  lemma {:induction false} NumeralValue(n: nat, base: nat, small: bool)
    requires GoodBase(base)
    ensures Value(Numeral(n, base, small), base) == n && Numeral(n, base, small) != []
    ensures forall i :: 0 <= i < |Numeral(n, base, small)| ==> Plain(Numeral(n, base, small)[i])
  {
    DigitsDecode(n, base, small);
    NumeralPlain(n, base, small);
    if n == 0 { assert Value("0", base) == Value("0"[..0], base) * base + 0; }
  }

  /** The number a reader must get back. */
  function Meaning(num: Int32, f: Flags): int { if f.sign then num else Unsigned(num) }

  /** A layout is its front and digits between spaces, with zeros instead of spaces in the middle. */
  lemma {:induction false} LayoutParts(front: string, digits: string, pad: int, f: Flags)
    returns (before: int, zeros: int, after: int)
    ensures Layout(front, digits, pad, f) ==
      Repeat(' ', before) + ((front + (Repeat('0', zeros) + digits)) + Repeat(' ', after))
  {
    var none := Repeat(' ', 0);
    assert Repeat('0', 0) == [] && none == [];
    if f.left {
      before, zeros, after := 0, 0, pad;
      assert [] + digits == digits;
      assert [] + ((front + digits) + Repeat(' ', pad)) == front + digits + Repeat(' ', pad);
    } else if f.zeropad {
      before, zeros, after := 0, pad, 0;
      var z := Repeat('0', pad);
      assert front + z + digits == front + (z + digits);
      assert [] + ((front + (z + digits)) + []) == front + (z + digits);
    } else {
      before, zeros, after := pad, 0, 0;
      assert [] + digits == digits;
      assert (front + digits) + [] == front + digits;
      assert Repeat(' ', pad) + front + digits == Repeat(' ', pad) + (front + digits);
    }
  }

  /** Trimming leaves the text, and takes a blank sign with it. */
  lemma {:induction false} TrimText(before: int, sign: string, body: string, after: int)
    requires body != [] && body[0] != ' ' && body[|body| - 1] != ' '
    requires sign == "" || sign == " " || sign == "+" || sign == "-"
    ensures TrimRight(TrimLeft(Repeat(' ', before) + ((sign + body) + Repeat(' ', after)))) ==
      if sign == " " then body else sign + body
  {
    var tail := Repeat(' ', after);
    if sign == " " {
      assert Repeat(' ', before) + ((sign + body) + tail) == Repeat(' ', Max(before, 0) + 1) + (body + tail);
      TrimLeftSpaces(Max(before, 0) + 1, body + tail);
      TrimRightSpaces(after, body);
    } else {
      TrimLeftSpaces(before, (sign + body) + tail);
      TrimRightSpaces(after, sign + body);
    }
  }

  /** Prefix, zeros and numeral read back as the number. */
  lemma {:induction false} BodyReads(base: int, f: Flags, zeros: int, d: string)
    requires GoodBase(base) && d != [] && forall i :: 0 <= i < |d| ==> Plain(d[i])
    ensures var body := PrefixPart(base, f) + (Repeat('0', zeros) + d);
      && body != [] && Plain(body[0]) && body[|body| - 1] != ' '
      && (f.special && base == 16 ==> |body| >= 2)
      && Value(if f.special && base == 16 then body[2..] else body, base) == Value(d, base)
  {
    hide Value;
    var z := Repeat('0', zeros);
    var body := PrefixPart(base, f) + (z + d);
    assert body[|body| - 1] == d[|d| - 1];
    LeadingZeros(zeros, d, base);
    if f.special && base == 16 {
      assert body[2..] == z + d;
    } else if f.special && base == 8 {
      assert body == Repeat('0', Max(zeros, 0) + 1) + d;
      LeadingZeros(Max(zeros, 0) + 1, d, base);
    } else {
      assert body == z + d;
      assert zeros <= 0 ==> body[0] == d[0];
    }
  }

  /** Reading a trimmed text of sign and body. */
  lemma {:induction false} ParseText(s: string, sign: string, body: string, base: nat, special: bool)
    requires body != [] && Plain(body[0]) && (special && base == 16 ==> |body| >= 2)
    requires sign == "" || sign == " " || sign == "+" || sign == "-"
    requires TrimRight(TrimLeft(s)) == if sign == " " then body else sign + body
    ensures var v := Value(if special && base == 16 then body[2..] else body, base);
      Parse(s, base, special) == if sign == "-" then -v else v
  {
    hide Value, TrimLeft, TrimRight;
    assert (sign + body)[|sign|..] == body;
  }

  lemma {:induction false} MagnitudeMeans(num: Int32, f: Flags)
    ensures Meaning(num, f) == if SignPart(num, f) == "-" then 0 - Magnitude(num, f) as int else Magnitude(num, f)
  {
  }

  lemma {:induction false} JoinText(sign: string, prefix: string, a: int, b: int, d: string)
    ensures (sign + prefix) + (Repeat('0', a) + (Repeat('0', b) + d)) ==
      sign + (prefix + (Repeat('0', Max(a, 0) + Max(b, 0)) + d))
  {
    var x, y, z := Repeat('0', a), Repeat('0', b), Repeat('0', Max(a, 0) + Max(b, 0));
    assert x + y == z;
    assert x + (y + d) == z + d;
  }

  /** Sign, prefix, some zeros and the numeral. */
  function Text(num: Int32, base: int, f: Flags, zeros: int): string
    requires GoodBase(base)
  {
    SignPart(num, f) + (PrefixPart(base, f) + (Repeat('0', zeros) + Numeral(Magnitude(num, f), base, f.small)))
  }

  lemma {:induction false} RenderIsText(num: Int32, base: int, width: int, precision: int, f: Flags)
    returns (before: int, zeros: int, after: int)
    requires GoodBase(base)
    ensures Render(num, base, width, precision, f) ==
      Repeat(' ', before) + (Text(num, base, f, zeros) + Repeat(' ', after))
  {
    hide Layout, Numeral, PrefixPart, SignPart, Magnitude, Repeat;
    var d := Numeral(Magnitude(num, f), base, f.small);
    var fill := precision - |d|;
    var sign, prefix := SignPart(num, f), PrefixPart(base, f);
    var pad := width - |sign + prefix| - |Repeat('0', fill)| - |d|;
    assert Render(num, base, width, precision, f) == Layout(sign + prefix, Repeat('0', fill) + d, pad, f);
    hide Render;
    var mid: int;
    before, mid, after := LayoutParts(sign + prefix, Repeat('0', fill) + d, pad, f);
    zeros := Max(mid, 0) + Max(fill, 0);
    JoinText(sign, prefix, mid, fill, d);
  }

  lemma {:induction false} SignIsOne(num: Int32, f: Flags)
    ensures var sign := SignPart(num, f); sign == "" || sign == " " || sign == "+" || sign == "-"
  {
  }

  lemma {:induction false} TextReads(num: Int32, base: int, f: Flags, before: int, zeros: int, after: int)
    requires GoodBase(base)
    ensures Parse(Repeat(' ', before) + (Text(num, base, f, zeros) + Repeat(' ', after)), base, f.special) ==
      Meaning(num, f)
  {
    SignIsOne(num, f);
    hide Numeral, Parse, PrefixPart, SignPart, Magnitude, Meaning, Value, Repeat, TrimLeft, TrimRight;
    var n, sign := Magnitude(num, f), SignPart(num, f);
    var d := Numeral(n, base, f.small);
    NumeralValue(n, base, f.small);
    BodyReads(base, f, zeros, d);
    var body := PrefixPart(base, f) + (Repeat('0', zeros) + d);
    TrimText(before, sign, body, after);
    ParseText(Repeat(' ', before) + ((sign + body) + Repeat(' ', after)), sign, body, base, f.special);
    MagnitudeMeans(num, f);
  }

  /** Main result: for every value, base, width, precision and flags, the rendering reads back as
      the value, signed or unsigned as asked for. */
  lemma {:induction false} ParseRender(num: Int32, base: int, width: int, precision: int, f: Flags)
    requires GoodBase(base)
    ensures Parse(Render(num, base, width, precision, f), base, f.special) == Meaning(num, f)
  {
    var before, zeros, after := RenderIsText(num, base, width, precision, f);
    TextReads(num, base, f, before, zeros, after);
    hide Render, Parse, Text, Meaning, Repeat;
  }

  // ----------------------------------------------------------------------------- the loops

  function Reversed(s: string): string { if s == [] then [] else Reversed(s[1..]) + [s[0]] }

  lemma {:induction false} ReversedSnoc(s: string, c: char)
    ensures Reversed(s + [c]) == [c] + Reversed(s) && |Reversed(s)| == |s|
  {
    if s != [] {
      assert (s + [c])[1..] == s[1..] + [c];
      ReversedSnoc(s[1..], c);
    } else {
      assert s + [c] == [c] && [c][1..] == [];
    }
  }

  lemma {:induction false} ReversedFew(c: char)
    ensures Reversed([]) == [] && Reversed([c]) == [c]
  {
  }

  lemma {:induction false} DigitsOfZero(n: nat, base: nat, small: bool)
    requires GoodBase(base)
    ensures Digits(0, base, small) == [] && (n > 0 ==> Digits(n, base, small) != [])
  {
  }

  /** One division moves the last digit to the front of what is done. */
  lemma {:induction false} DigitsStep(n: nat, base: nat, small: bool, done: string)
    requires GoodBase(base) && n > 0
    ensures 0 <= n / base < n && 0 <= n % base < base
    ensures |Digits(n, base, small)| == |Digits(n / base, base, small)| + 1
    ensures Digits(n, base, small) + done == Digits(n / base, base, small) + ([DigitChar(n % base, small)] + done)
  {
    Shrinks(n, base);
  }

  /** The division loop: least digit first, into a buffer of 36 characters. */
  method FillDigits(num: nat, base: nat, small: bool) returns (tmp: array<char>, i: nat)
    requires GoodBase(base) && num < 0x1_0000_0000
    ensures fresh(tmp) && tmp.Length == 36 && 1 <= i <= 32
    ensures Reversed(tmp[..i]) == Numeral(num, base, small)
  {
    tmp := new char[36];
    WordIsTwoTo32();
    FewDigits(num, base, small, 32);
    hide DigitChar, TwoTo, Digits, Reversed;
    ghost var all := Digits(num, base, small);
    var n := num;
    i := 0;
    ReversedFew('0');
    if n == 0 {
      tmp[0] := '0';
      i := 1;
      assert tmp[..1] == "0";
      return;
    }
    assert tmp[..0] == [] && all + [] == all;
    while n != 0
      invariant 0 <= n && i <= 32 && tmp.Length == 36
      invariant |Digits(n, base, small)| + i == |all|
      invariant all == Digits(n, base, small) + Reversed(tmp[..i])
      decreases n
    {
      DigitsStep(n, base, small, Reversed(tmp[..i]));
      var digit := n % base;
      ghost var sofar := tmp[..i];
      tmp[i] := DigitChar(digit, small);
      ReversedSnoc(sofar, DigitChar(digit, small));
      assert tmp[..i + 1] == sofar + [DigitChar(digit, small)];
      n := n / base;
      i := i + 1;
    }
    DigitsOfZero(num, base, small);
  }

  /** `while (size-- > 0) *str++ = c`. */
  method Pad(out: string, c: char, size: Int32) returns (str: string, left: Int32)
    ensures str == out + Repeat(c, size) && left == After(size)
  {
    str, left := out, size;
    while left > 0
      invariant left <= size && str == out + Repeat(c, size - left)
      invariant if size > 0 then left >= 0 else left == size
    {
      assert Repeat(c, size - left) + [c] == Repeat(c, size - left + 1);
      str := str + [c];
      left := left - 1;
    }
    left := Wrap(left - 1);
  }

  /** `while (i-- > 0) *str++ = tmp[i]`. */
  method EmitDigits(out: string, tmp: array<char>, count: nat) returns (str: string)
    requires count <= tmp.Length
    ensures str == out + Reversed(tmp[..count])
  {
    str := out;
    var i: nat := count;
    while i > 0
      invariant i <= count && str + Reversed(tmp[..i]) == out + Reversed(tmp[..count])
    {
      i := i - 1;
      ReversedSnoc(tmp[..i], tmp[i]);
      assert tmp[..i + 1] == tmp[..i] + [tmp[i]];
      str := str + [tmp[i]];
    }
  }

  /** The sign character and the word to print. */
  method ChooseSign(num: Int32, f: Flags) returns (sign: string, n: nat)
    ensures sign == SignPart(num, f) && n == Magnitude(num, f)
  {
    sign, n := "", Unsigned(num);
    if f.sign && num < 0 {
      sign, n := "-", Unsigned(Wrap(-(num as int)));
    } else if f.plus {
      sign := "+";
    } else if f.space {
      sign := " ";
    }
  }

  /** Character 33 of the digits is the X of the prefix. */
  lemma {:induction false} PrefixIs(base: int, f: Flags)
    ensures PrefixPart(base, f) ==
      if !f.special then ""
      else if base == 8 then "0"
      else if base == 16 then ['0', DigitChar(33, f.small)]
      else ""
  {
  }

  /** Only the padding flags matter to the padding, and LEFT overrides ZEROPAD. */
  lemma {:induction false} PaddedIgnores(front: string, digits: string, size: Int32, f: Flags, g: Flags)
    requires g == if f.left then f.(zeropad := false) else f
    ensures Padded(front, digits, size, g) == Padded(front, digits, size, f)
  {
  }

  /** The pieces written in order make up the padded text. */
  lemma {:induction false} Assemble(
      lead: string, sign: string, prefix: string, mid: string, zeros: string, digits: string, trail: string,
      size: Int32, f: Flags, str: string)
    requires f.left ==> !f.zeropad
    requires lead == if f.zeropad || f.left then "" else "" + Repeat(' ', size)
    requires mid ==
      if f.left then "" else if f.zeropad then Repeat('0', size) else Repeat(' ', After(size))
    requires trail ==
      Repeat(' ', if f.left then size else if f.zeropad then After(size) else After(After(size)))
    requires str == lead + sign + prefix + mid + zeros + digits + trail
    ensures str == Padded(sign + prefix, zeros + digits, size, f)
  {
    hide Repeat, After;
    if f.left {
      assert str == (sign + prefix) + (zeros + digits) + trail;
    } else if f.zeropad {
      assert str == (sign + prefix) + mid + (zeros + digits) + trail;
    } else {
      assert str == Repeat(' ', size) + (sign + prefix) + mid + (zeros + digits) + trail;
    }
  }

  /** The output loops of `number`, once `size` is what is left to pad. */
  method Emit(
      sign: string, prefix: string, tmp: array<char>, i: nat, precision: Int32, size: Int32, f: Flags, c: char)
    returns (str: string)
    requires i <= tmp.Length && i <= precision && (f.left ==> !f.zeropad) && c == if f.zeropad then '0' else ' '
    ensures str == Padded(sign + prefix, Repeat('0', precision - i) + Reversed(tmp[..i]), size, f)
  {
    hide Reversed, Repeat, Padded, After;
    var left, unused := size, 0;
    str := "";
    if !f.zeropad && !f.left {
      str, left := Pad(str, ' ', left);
    }
    ghost var lead := str;
    str := str + sign + prefix;
    ghost var mid := "";
    if !f.left {
      mid := Repeat(c, left);
      str, left := Pad(str, c, left);
    }
    assert str == lead + sign + prefix + mid;
    str, unused := Pad(str, '0', precision - i);
    str := EmitDigits(str, tmp, i);
    ghost var trail := Repeat(' ', left);
    str, left := Pad(str, ' ', left);
    Assemble(lead, sign, prefix, mid, Repeat('0', precision - i), Reversed(tmp[..i]), trail, size, f, str);
  }

  /** What is left to pad after the sign and the prefix. */
  method SizeLeft(base: int, width: Int32, sign: string, f: Flags, ghost prefix: string) returns (size: Int32)
    requires |sign| <= 1 && prefix == PrefixPart(base, f)
    ensures size == Wrap(width - |sign| - |prefix|)
  {
    hide Wrap;
    size := if sign == "" then width else Wrap(width - 1);
    WrapMinus(width - |sign|, |prefix|);
    WrapId(width);
    if f.special {
      if base == 16 { size := Wrap(size - 2); } else if base == 8 { size := Wrap(size - 1); }
    }
  }

  lemma {:induction false} WrittenIs(
      num: Int32, base: int, width: Int32, prec: Int32, f: Flags, g: Flags, sign: string, prefix: string,
      numeral: string, precision: Int32)
    requires GoodBase(base) && g == if f.left then f.(zeropad := false) else f
    requires sign == SignPart(num, f) && prefix == PrefixPart(base, f)
    requires numeral == Numeral(Magnitude(num, f), base, f.small) && precision == Max(prec, |numeral|)
    ensures Padded(sign + prefix, Repeat('0', precision - |numeral|) + numeral,
                   Wrap(width - |sign| - |prefix| - precision), g) == Written(num, base, width, prec, f)
  {
    hide Padded, Numeral, Magnitude, SignPart, PrefixPart, Wrap, Repeat;
    SameFill(precision - |numeral|, prec - |numeral|);
    var digits := Repeat('0', precision - |numeral|) + numeral;
    PaddedIgnores(sign + prefix, digits, Wrap(width - |sign| - |prefix| - precision), f, g);
  }

  /** `number`: NULL for a base it cannot print, and the rendering exactly when the padding fits. */
  method Number(num: Int32, base: int, width: Int32, prec: Int32, type_: Flags) returns (out: Option<string>)
    ensures out.None? <==> base < 2 || 36 < base
    ensures out.Some? ==> out.value == Written(num, base, width, prec, type_)
    ensures out.Some? ==>
      (out.value == Render(num, base, width, prec, type_) <==> Fits(PadOf(num, base, width, prec, type_), type_))
  {
    PrefixIs(base, type_);
    SignIsOne(num, type_);
    hide Padded, Digits, Reversed, Numeral, DigitChar, Repeat, SignPart, Magnitude, PrefixPart, Wrap, Fits, Render,
      Written, PadOf;
    var f := if type_.left then type_.(zeropad := false) else type_;
    if base < 2 || base > 36 { return None; }
    var c := if f.zeropad then '0' else ' ';
    var sign, n := ChooseSign(num, type_);
    var size := SizeLeft(base, width, sign, type_, PrefixPart(base, type_));
    var tmp, i := FillDigits(n, base, f.small);
    var precision: Int32 := if i > prec then i else prec;
    WrapMinus(width - |sign| - |PrefixPart(base, type_)|, precision);
    size := Wrap(size - precision);
    var prefix :=
      if !f.special then "" else if base == 8 then "0" else if base == 16 then ['0', DigitChar(33, f.small)] else "";
    ReversedSnoc(tmp[..i], ' ');
    var str := Emit(sign, prefix, tmp, i, precision, size, f, c);
    WrittenIs(num, base, width, prec, type_, f, sign, prefix, Reversed(tmp[..i]), precision);
    WrittenIsRenderIff(num, base, width, prec, type_);
    return Some(str);
  }

  // ------------------------------------------------------------------------------ skip_atoi

  predicate IsDigit(c: char) { '0' <= c <= '9' }

  /** Length of the digits at the start of a string. */
  function DigitRun(s: string): (k: nat)
    ensures k <= |s| && (forall i :: 0 <= i < k ==> IsDigit(s[i])) && (k < |s| ==> !IsDigit(s[k]))
  {
    if s == [] || !IsDigit(s[0]) then 0 else 1 + DigitRun(s[1..])
  }

  /** One step of the loop agrees with the step on unbounded integers, modulo 2^32. */
  lemma {:induction false} WrapStep(x: int, d: int)
    ensures Wrap(Wrap(x) * 10 + d) == Wrap(x * 10 + d)
  {
    var k := (x + 0x8000_0000) / 0x1_0000_0000;
    assert Wrap(x) == x - 0x1_0000_0000 * k;
    WrapPeriod(Wrap(x) * 10 + d, 10 * k);
  }

  /** `skip_atoi`: the digits at the start are consumed, and their value is kept to 32 bits. The
      end of the string stands for its NUL. */
  method SkipAtoi(s: string) returns (i: Int32, consumed: nat)
    ensures consumed == DigitRun(s) && i == Wrap(Value(s[..consumed], 10))
  {
    i, consumed := 0, 0;
    assert s[..0] == [] && Value([], 10) == 0;
    while consumed < |s| && IsDigit(s[consumed])
      invariant consumed <= DigitRun(s) && i == Wrap(Value(s[..consumed], 10))
    {
      var d := s[consumed] as int - '0' as int;
      WrapStep(Value(s[..consumed], 10), d);
      ValueSnoc(s[..consumed], s[consumed], 10);
      assert s[..consumed] + [s[consumed]] == s[..consumed + 1];
      i := Wrap(i as int * 10 + d);
      consumed := consumed + 1;
    }
  }

  lemma {:induction false} DecimalDigits(n: nat, small: bool, k: nat)
    requires k < |Digits(n, 10, small)|
    ensures IsDigit(Digits(n, 10, small)[k])
  {
    Shrinks(n, 10);
    DigitRoundTrip(n % 10, small);
    if k < |Digits(n / 10, 10, small)| { DecimalDigits(n / 10, small, k); }
  }

  /** The plain decimal form of any non-negative int, followed by anything that is not a digit, is
      read back by the loop of `skip_atoi`. */
  lemma {:induction false} AtoiRoundTrip(n: nat, rest: string)
    requires n < 0x8000_0000 && (rest == [] || !IsDigit(rest[0]))
    ensures var s := Numeral(n, 10, false) + rest;
      DigitRun(s) == |Numeral(n, 10, false)| && Wrap(Value(s[..DigitRun(s)], 10)) == n
  {
    var d := Numeral(n, 10, false);
    var s := d + rest;
    forall k | 0 <= k < |d| ensures IsDigit(s[k]) {
      if n != 0 { DecimalDigits(n, false, k); }
    }
    NumeralValue(n, 10, false);
    assert |d| < |s| ==> s[|d|] == rest[0];
    assert DigitRun(s) == |d|;
    assert s[..|d|] == d;
  }
}
