/** Machine words as numbers: the value of a bit vector, unsigned and two's complement, and what
    the operators of the host's 32-bit arithmetic do to it. */
module Numbers {
  import opened Isa
  import opened Words

  /** The unsigned value of a word, and the word of a value, bit by bit. */
  function Number(w: bits): nat
    decreases w
  {
    if w == 0 then 0 else 2 * Number(w >> 1) + (if w & 1 != 0 then 1 else 0)
  }

  function Word32(n: nat): bits {
    if n == 0 then 0 else (Word32(n / 2) << 1) | (if n % 2 == 1 then 1 else 0)
  }

  /** The word without its low k bits. */
  function Shifted(w: bits, k: nat): bits {
    if k == 0 then w else Shifted(w >> 1, k - 1)
  }

  lemma {:induction false} NumberBelow(w: bits, k: nat)
    requires Shifted(w, k) == 0
    ensures Number(w) < Pow2(k)
  {
    if k > 0 {
      NumberBelow(w >> 1, k - 1);
    }
  }

  lemma ShiftFour(w: bits, k: nat)
    ensures Shifted(w, k + 4) == Shifted(w >> 4, k)
  {
    assert Shifted(w, k + 4) == Shifted(w >> 1, k + 3);
    assert Shifted(w >> 1, k + 3) == Shifted(w >> 2, k + 2);
    assert Shifted(w >> 2, k + 2) == Shifted(w >> 3, k + 1);
  }

  lemma EightShifts(w: bits)
    ensures w >> 4 >> 4 >> 4 >> 4 >> 4 >> 4 >> 4 >> 4 == 0
  {
  }

  lemma NothingLeft(w: bits)
    ensures Shifted(w, 32) == 0
  {
    var w1 := w >> 4;
    var w2 := w1 >> 4;
    var w3 := w2 >> 4;
    var w4 := w3 >> 4;
    var w5 := w4 >> 4;
    var w6 := w5 >> 4;
    var w7 := w6 >> 4;
    ShiftFour(w, 28);
    ShiftFour(w1, 24);
    ShiftFour(w2, 20);
    ShiftFour(w3, 16);
    ShiftFour(w4, 12);
    ShiftFour(w5, 8);
    ShiftFour(w6, 4);
    ShiftFour(w7, 0);
    EightShifts(w);
  }

  lemma NumberFits(w: bits)
    ensures Number(w) < TWO32
  {
    NothingLeft(w);
    NumberBelow(w, 32);
    Pow2Of32();
  }

  lemma Pow2Of32()
    ensures Pow2(32) == TWO32
  {
    assert Pow2(8) == 0x100;
    assert Pow2(12) == 16 * Pow2(8);
    assert Pow2(16) == 16 * Pow2(12);
    assert Pow2(20) == 16 * Pow2(16);
    assert Pow2(24) == 16 * Pow2(20);
    assert Pow2(28) == 16 * Pow2(24);
  }

  lemma OddWord(w: bits, h: bits)
    requires w & 1 != 0 && h == w >> 1
    ensures (h << 1) | 1 == w
  {
  }

  lemma EvenWord(w: bits, h: bits)
    requires w & 1 == 0 && h == w >> 1
    ensures (h << 1) | 0 == w
  {
  }

  lemma OddNumber(n: nat, w: bits)
    requires (Word32(n) << 1) | 1 == w
    ensures Word32(2 * n + 1) == w
  {
    assert (2 * n + 1) / 2 == n && (2 * n + 1) % 2 == 1;
  }

  lemma EvenNumber(n: nat, w: bits)
    requires (Word32(n) << 1) | 0 == w && n > 0
    ensures Word32(2 * n) == w
  {
    assert 2 * n / 2 == n && 2 * n % 2 == 0;
  }

  lemma {:induction false} NumberPositive(w: bits)
    requires w != 0
    ensures Number(w) > 0
    decreases w
  {
    if w & 1 == 0 {
      assert w >> 1 != 0;
      NumberPositive(w >> 1);
    }
  }

  /** One more bit: if n is the number of h, the word w = 2h or 2h + 1 is that of its number. */
  lemma {:induction false} NextBit(w: bits, h: bits, n: nat, m: nat)
    requires w != 0 && h == w >> 1 && Word32(n) == h && (n == 0 ==> w & 1 != 0)
    requires m == 2 * n + (if w & 1 != 0 then 1 else 0)
    ensures Word32(m) == w
  {
    if w & 1 != 0 {
      OddWord(w, Word32(n));
      OddNumber(n, w);
    } else {
      EvenWord(w, Word32(n));
      EvenNumber(n, w);
    }
  }

  lemma NumberOfZero(w: bits)
    requires w != 0 && Number(w >> 1) == 0
    ensures w & 1 != 0
  {
    NumberPositive(w);
  }

  /** Words and their numbers correspond one to one. */
  lemma {:induction false} WordOfNumber(w: bits)
    ensures Word32(Number(w)) == w
    decreases w
  {
    if w != 0 {
      WordOfNumber(w >> 1);
      if Number(w >> 1) == 0 {
        NumberOfZero(w);
      }
      NextBit(w, w >> 1, Number(w >> 1), Number(w));
    }
  }

  // ---- Addition ----

  const MAX: bits := 0xFFFF_FFFF

  function Plus(x: bits, y: bits): bits { x + y }

  function Inc(x: bits): bits { x + 1 }

  function Dec(x: bits): bits { x - 1 }

  /** What counting up does to the halves and the low bit. */
  ghost predicate CountsEven(inc: bits -> bits, x: bits) {
    x & 1 == 0 ==> inc(x) >> 1 == x >> 1 && inc(x) & 1 == 1
  }

  ghost predicate CountsOdd(inc: bits -> bits, x: bits) {
    x & 1 != 0 && x != MAX ==> inc(x) >> 1 == inc(x >> 1) && inc(x) & 1 == 0
  }

  ghost predicate Counts(inc: bits -> bits, x: bits) { CountsEven(inc, x) && CountsOdd(inc, x) }

  lemma WordsCount(x: bits)
    ensures Counts(Inc, x)
  {
    EvenNext(x);
    OddNext(x);
  }

  lemma EvenNext(x: bits)
    ensures CountsEven(Inc, x)
  {
  }

  lemma OddNext(x: bits)
    ensures CountsOdd(Inc, x)
  {
  }

  lemma OddHalf(x: bits)
    requires x & 1 != 0
    ensures x >> 1 != MAX && x >> 1 < x
  {
  }

  function Bit(x: bits): nat { if x & 1 != 0 then 1 else 0 }

  lemma Unfolded(x: bits)
    ensures Number(x) == 2 * Number(x >> 1) + Bit(x)
  {
    if x == 0 {
      assert x >> 1 == 0;
    }
  }

  lemma {:induction false} CountsUp(inc: bits -> bits, x: bits)
    requires (forall w :: Counts(inc, w)) && x != MAX
    ensures Number(inc(x)) == Number(x) + 1
    decreases x
  {
    assert Counts(inc, x);
    Unfolded(x);
    Unfolded(inc(x));
    if x & 1 != 0 {
      OddHalf(x);
      CountsUp(inc, x >> 1);
    }
  }

  /** What counting up in one operand and down in the other does to a sum. */
  ghost predicate Trades(plus: (bits, bits) -> bits, inc: bits -> bits, dec: bits -> bits, x: bits, y: bits) {
    && plus(x, 0) == x && inc(MAX) == 0
    && (y != 0 ==> plus(inc(x), dec(y)) == plus(x, y) && inc(dec(y)) == y && dec(y) != MAX)
  }

  lemma WordsTrade(x: bits, y: bits)
    ensures Trades(Plus, Inc, Dec, x, y)
  {
    assert Plus(x, 0) == x;
    assert Plus(x + 1, y - 1) == Plus(x, y);
    assert Inc(y - 1) == y;
  }

  /** A numbering of the words by counting. */
  ghost predicate Numbering(number: bits -> nat, inc: bits -> bits, w: bits) {
    && number(w) < TWO32 && number(0) == 0 && number(MAX) == TWO32 - 1
    && (w != MAX ==> number(inc(w)) == number(w) + 1)
  }

  lemma {:induction false} Adds(number: bits -> nat, plus: (bits, bits) -> bits, inc: bits -> bits,
                                dec: bits -> bits, x: bits, y: bits)
    requires (forall w :: Numbering(number, inc, w)) && forall v, w :: Trades(plus, inc, dec, v, w)
    ensures number(plus(x, y)) == (number(x) + number(y)) % TWO32
    decreases number(y)
  {
    assert Trades(plus, inc, dec, x, y) && Numbering(number, inc, x);
    if y == 0 {
      WrapSmall(number(x));
    } else {
      assert Numbering(number, inc, dec(y));
      Adds(number, plus, inc, dec, inc(x), dec(y));
      Traded(number(x), number(y), number(inc(x)));
    }
  }

  lemma NumberCounts(number: bits -> nat, w: bits)
    requires (forall v :: number(v) == Number(v)) && Number(MAX) == TWO32 - 1
    ensures Numbering(number, Inc, w)
  {
    NumberFits(w);
    if w != MAX {
      forall v ensures Counts(Inc, v) { WordsCount(v); }
      CountsUp(Inc, w);
    }
  }

  lemma Traded(a: nat, b: nat, a': nat)
    requires b > 0 && (a' == a + 1 || (a' == 0 && a == TWO32 - 1))
    ensures (a' + (b - 1)) % TWO32 == (a + b) % TWO32
  {
  }

  /** The highest word, digit by digit. */
  lemma AllOnes()
    ensures Number(MAX) == TWO32 - 1
  {
    Digit(0xF, 7, 3, 1, 0);
    Digit(0xFF, 0x7F, 0x3F, 0x1F, 0xF);
    Digit(0xFFF, 0x7FF, 0x3FF, 0x1FF, 0xFF);
    Digit(0xFFFF, 0x7FFF, 0x3FFF, 0x1FFF, 0xFFF);
    Digit(0xF_FFFF, 0x7_FFFF, 0x3_FFFF, 0x1_FFFF, 0xFFFF);
    Digit(0xFF_FFFF, 0x7F_FFFF, 0x3F_FFFF, 0x1F_FFFF, 0xF_FFFF);
    Digit(0xFFF_FFFF, 0x7FF_FFFF, 0x3FF_FFFF, 0x1FF_FFFF, 0xFF_FFFF);
    Digit(MAX, 0x7FFF_FFFF, 0x3FFF_FFFF, 0x1FFF_FFFF, 0xFFF_FFFF);
  }

  lemma Odd(v: bits, w: bits)
    requires v >> 1 == w && v & 1 != 0
    ensures Number(v) == 2 * Number(w) + 1
  {
    Unfolded(v);
  }

  lemma Digit(v: bits, v1: bits, v2: bits, v3: bits, w: bits)
    requires v >> 1 == v1 && v1 >> 1 == v2 && v2 >> 1 == v3 && v3 >> 1 == w
    requires v & 1 != 0 && v1 & 1 != 0 && v2 & 1 != 0 && v3 & 1 != 0
    ensures Number(v) == 16 * Number(w) + 15
  {
    Odd(v, v1);
    Odd(v1, v2);
    Odd(v2, v3);
    Odd(v3, w);
  }

  /** The low masks, on the way. */
  lemma LowOnes()
    ensures Number(0x1F) == 0x1F && Number(0xFF) == 0xFF && Number(0xFFF) == 0xFFF && Number(0xFFFF) == 0xFFFF
  {
    Digit(0xF, 7, 3, 1, 0);
    Odd(0x1F, 0xF);
    Digit(0xFF, 0x7F, 0x3F, 0x1F, 0xF);
    Digit(0xFFF, 0x7FF, 0x3FF, 0x1FF, 0xFF);
    Digit(0xFFFF, 0x7FFF, 0x3FFF, 0x1FFF, 0xFFF);
  }

  /** A low mask keeps the remainder. */
  lemma LowBits(x: bits, mask: bits, k: nat)
    requires Number(mask) == Pow2(k) - 1
    ensures Number(x & mask) == Number(x) % Pow2(k)
  {
    AndNumber(x, mask);
    AndLowMask(Number(x), k);
  }

  /** The sum of two words is the sum of their values modulo 2^32. */
  lemma SumNumber(x: bits, y: bits)
    ensures Number(x + y) == (Number(x) + Number(y)) % TWO32
  {
    AllOnes();
    var number := (w: bits) => Number(w);
    forall w ensures Numbering(number, Inc, w) { NumberCounts(number, w); }
    forall v, w ensures Trades(Plus, Inc, Dec, v, w) { WordsTrade(v, w); }
    Adds(number, Plus, Inc, Dec, x, y);
  }

  lemma MinusPlus(x: bits, y: bits)
    ensures Plus(x - y, y) == x
  {
  }

  /** So with the difference, and the complement. */
  lemma DifferenceNumber(x: bits, y: bits)
    ensures Number(x - y) == (Number(x) - Number(y)) % TWO32
  {
    MinusPlus(x, y);
    PlusNumber(x - y, y);
    NumberFits(x - y);
    Subtracted(Number(x - y), Number(y), Number(x));
  }

  lemma PlusNumber(x: bits, y: bits)
    ensures Number(Plus(x, y)) == (Number(x) + Number(y)) % TWO32
  {
    SumNumber(x, y);
  }

  lemma Subtracted(c: nat, b: nat, a: nat)
    requires c < TWO32 && (c + b) % TWO32 == a
    ensures c == (a - b) % TWO32
  {
  }

  lemma ComplementNumber(x: bits)
    ensures Number(!x) == TWO32 - 1 - Number(x)
  {
    assert !x == MAX - x;
    AllOnes();
    DifferenceNumber(MAX, x);
    NumberFits(x);
    WrapSmall(TWO32 - 1 - Number(x));
  }

  // ---- Order and sign ----

  function UnsignedLess(x: bits, y: bits): bool { x < y }

  /** What the halves and low bits say about the order. */
  ghost predicate OrdersBelow(less: (bits, bits) -> bool, x: bits, y: bits) {
    less(x >> 1, y >> 1) ==> less(x, y)
  }

  ghost predicate OrdersAbove(less: (bits, bits) -> bool, x: bits, y: bits) {
    less(y >> 1, x >> 1) ==> !less(x, y)
  }

  ghost predicate OrdersLow(less: (bits, bits) -> bool, x: bits, y: bits) {
    x >> 1 == y >> 1 && x & 1 == 0 && y & 1 != 0 ==> less(x, y)
  }

  ghost predicate OrdersOdd(less: (bits, bits) -> bool, x: bits, y: bits) {
    x >> 1 == y >> 1 && x & 1 != 0 ==> !less(x, y)
  }

  ghost predicate OrdersEven(less: (bits, bits) -> bool, x: bits, y: bits) {
    x >> 1 == y >> 1 && y & 1 == 0 ==> !less(x, y)
  }

  ghost predicate Orders(less: (bits, bits) -> bool, x: bits, y: bits) {
    && OrdersBelow(less, x, y) && OrdersAbove(less, x, y)
    && OrdersLow(less, x, y) && OrdersOdd(less, x, y) && OrdersEven(less, x, y)
  }

  lemma HalvesBelow(x: bits, y: bits)
    ensures OrdersBelow(UnsignedLess, x, y)
  {
  }

  lemma HalvesAbove(x: bits, y: bits)
    ensures OrdersAbove(UnsignedLess, x, y)
  {
  }

  lemma LowBitsBelow(x: bits, y: bits)
    ensures OrdersLow(UnsignedLess, x, y)
  {
  }

  lemma OddNotBelow(x: bits, y: bits)
    ensures OrdersOdd(UnsignedLess, x, y)
  {
  }

  lemma NotBelowEven(x: bits, y: bits)
    ensures OrdersEven(UnsignedLess, x, y)
  {
  }

  lemma WordsOrder(x: bits, y: bits)
    ensures Orders(UnsignedLess, x, y)
  {
    HalvesBelow(x, y);
    HalvesAbove(x, y);
    LowBitsBelow(x, y);
    OddNotBelow(x, y);
    NotBelowEven(x, y);
  }

  lemma {:induction false} OrderIs(less: (bits, bits) -> bool, x: bits, y: bits)
    requires (forall v, w :: Orders(less, v, w)) && !less(0, 0)
    ensures less(x, y) <==> Number(x) < Number(y)
    decreases Number(x) + Number(y)
  {
    Unfolded(x);
    Unfolded(y);
    if x != 0 || y != 0 {
      NumberPositive2(x, y);
      OrderIs(less, x >> 1, y >> 1);
      OrderIs(less, y >> 1, x >> 1);
      assert Orders(less, x, y);
      Tied(less, x, y);
      Decided(less(x, y), less(x >> 1, y >> 1), less(y >> 1, x >> 1), Number(x >> 1), Number(y >> 1), Bit(x), Bit(y));
    }
  }

  lemma Decided(l: bool, below: bool, above: bool, n: nat, m: nat, b: nat, e: nat)
    requires (below <==> n < m) && (above <==> m < n) && b <= 1 && e <= 1
    requires (below ==> l) && (above ==> !l) && (n == m ==> (l <==> b < e))
    ensures l <==> 2 * n + b < 2 * m + e
  {
  }

  lemma Tied(less: (bits, bits) -> bool, x: bits, y: bits)
    requires Orders(less, x, y)
    ensures Number(x >> 1) == Number(y >> 1) ==> (less(x, y) <==> Bit(x) < Bit(y))
  {
    if Number(x >> 1) == Number(y >> 1) {
      SameNumber(x >> 1, y >> 1);
    }
  }

  lemma NumberPositive2(x: bits, y: bits)
    requires x != 0 || y != 0
    ensures Number(x) + Number(y) > 0
  {
    if x != 0 {
      NumberPositive(x);
    } else {
      NumberPositive(y);
    }
  }

  lemma SameNumber(x: bits, y: bits)
    requires Number(x) == Number(y)
    ensures x == y
  {
    WordOfNumber(x);
    WordOfNumber(y);
  }

  /** The order of words is that of their values. */
  lemma LessIff(x: bits, y: bits)
    ensures x < y <==> Number(x) < Number(y)
  {
    forall v, w ensures Orders(UnsignedLess, v, w) { WordsOrder(v, w); }
    OrderIs(UnsignedLess, x, y);
  }

  /** The two's complement value. */
  function Signed(x: bits): int {
    if Number(x) < 0x8000_0000 then Number(x) else Number(x) - TWO32
  }

  lemma HalfRange()
    ensures Number(0x8000_0000) == 0x8000_0000
  {
    var w: bits := 0x7FFF_FFFF;
    assert !w == 0x8000_0000;
    AllOnes();
    Odd(MAX, 0x7FFF_FFFF);
    ComplementNumber(0x7FFF_FFFF);
  }

  lemma SignBit(x: bits)
    ensures x & 0x8000_0000 != 0 <==> Number(x) >= 0x8000_0000
  {
    HalfRange();
    LessIff(x, 0x8000_0000);
    TopBit(x);
  }

  lemma TopBit(x: bits)
    ensures x & 0x8000_0000 != 0 <==> !(x < 0x8000_0000)
  {
  }

  lemma FlipTop(x: bits)
    ensures x ^ 0x8000_0000 == Plus(x, 0x8000_0000)
  {
  }

  lemma Flipped(x: bits)
    ensures Number(x ^ 0x8000_0000) == Signed(x) + 0x8000_0000
  {
    FlipTop(x);
    PlusNumber(x, 0x8000_0000);
    HalfRange();
    NumberFits(x);
  }

  /** Flipping the top bit makes the unsigned order the signed one. */
  lemma SignedLessIff(x: bits, y: bits)
    ensures x ^ 0x8000_0000 < y ^ 0x8000_0000 <==> Signed(x) < Signed(y)
  {
    Flipped(x);
    Flipped(y);
    LessIff(x ^ 0x8000_0000, y ^ 0x8000_0000);
  }

  lemma SignedRange(x: bits)
    ensures -0x8000_0000 <= Signed(x) < 0x8000_0000 && Signed(x) % TWO32 == Number(x)
  {
    NumberFits(x);
  }

  // ---- Shifts ----

  /** Shifts by an amount below 32, and by none otherwise. */
  function ShiftRight(x: bits, s: bits): bits { if s < 32 then x >> s else x }

  function ShiftLeft(x: bits, s: bits): bits { if s < 32 then x << s else x }

  function Half(x: bits): bits { x >> 1 }

  function Double(x: bits): bits { x + x }

  /** A shift repeats its step. */
  ghost predicate Repeats(shift: (bits, bits) -> bits, step: bits -> bits, dec: bits -> bits, x: bits, s: bits) {
    && shift(x, 0) == x
    && (0 < s < 32 ==> dec(s) < 32 && shift(x, s) == shift(step(x), dec(s)))
  }

  ghost predicate Doubles(number: bits -> nat, double: bits -> bits, w: bits) {
    number(double(w)) == 2 * number(w) % TWO32 && number(w) < TWO32
  }

  ghost predicate Halves(number: bits -> nat, half: bits -> bits, w: bits) { number(half(w)) == number(w) / 2 }

  /** Counting down, to the word of value zero. */
  ghost predicate Lowers(number: bits -> nat, dec: bits -> bits, w: bits) {
    if w == 0 then number(w) == 0 else number(w) == number(dec(w)) + 1
  }

  lemma RightOnce(x: bits, s: bits)
    requires 0 < s < 32
    ensures s - 1 < 32 && ShiftRight(x, s) == ShiftRight(x >> 1, s - 1)
  {
  }

  lemma RightRepeats(x: bits, s: bits)
    ensures Repeats(ShiftRight, Half, Dec, x, s)
  {
    if 0 < s < 32 {
      RightOnce(x, s);
    }
  }

  lemma LeftRepeats(x: bits, s: bits)
    ensures Repeats(ShiftLeft, Double, Dec, x, s)
  {
    assert x << 1 == Double(x);
    if 0 < s < 32 {
      LeftOnce(x, s);
    }
  }

  lemma LeftOnce(x: bits, s: bits)
    requires 0 < s < 32
    ensures s - 1 < 32 && ShiftLeft(x, s) == ShiftLeft(x << 1, s - 1)
  {
  }

  lemma NumberOfOne()
    ensures Number(1) == 1
  {
  }

  lemma OneLess(s: bits)
    requires s != 0
    ensures Number(s) == Number(Dec(s)) + 1
  {
    DifferenceNumber(s, 1);
    NumberOfOne();
    NumberPositive(s);
    NumberFits(s);
    WrapSmall(Number(s) - 1);
  }

  /** A right shift divides. */
  lemma {:induction false} Divides(number: bits -> nat, shift: (bits, bits) -> bits, half: bits -> bits,
                                   dec: bits -> bits, x: bits, s: bits)
    requires forall v, w :: Repeats(shift, half, dec, v, w)
    requires forall w :: Halves(number, half, w) && Lowers(number, dec, w)
    requires s < 32
    ensures number(shift(x, s)) == number(x) / Pow2(number(s))
    decreases number(s)
  {
    assert Repeats(shift, half, dec, x, s) && Halves(number, half, x) && Lowers(number, dec, s);
    if s != 0 {
      Divides(number, shift, half, dec, half(x), dec(s));
      DivideByProduct(number(x), 2, Pow2(number(dec(s))));
    }
  }

  lemma HalvesAndLowers(number: bits -> nat, w: bits)
    requires forall v :: number(v) == Number(v)
    ensures Halves(number, Half, w) && Lowers(number, Dec, w)
  {
    Unfolded(w);
    if w != 0 {
      OneLess(w);
    }
  }

  lemma RightNumber(x: bits, s: bits)
    requires s < 32
    ensures Number(ShiftRight(x, s)) == Number(x) / Pow2(Number(s))
  {
    forall v, w ensures Repeats(ShiftRight, Half, Dec, v, w) { RightRepeats(v, w); }
    var number := (w: bits) => Number(w);
    forall w ensures Halves(number, Half, w) && Lowers(number, Dec, w) { HalvesAndLowers(number, w); }
    Divides(number, ShiftRight, Half, Dec, x, s);
  }

  /** A left shift multiplies modulo 2^32. */
  lemma {:induction false} Multiplies(number: bits -> nat, shift: (bits, bits) -> bits, double: bits -> bits,
                                      dec: bits -> bits, x: bits, s: bits)
    requires forall v, w :: Repeats(shift, double, dec, v, w)
    requires forall w :: Doubles(number, double, w) && Lowers(number, dec, w)
    requires s < 32
    ensures number(shift(x, s)) == number(x) * Pow2(number(s)) % TWO32
    decreases number(s)
  {
    assert Repeats(shift, double, dec, x, s) && Doubles(number, double, x) && Lowers(number, dec, s);
    if s == 0 {
      WrapSmall(number(x));
    } else {
      Multiplies(number, shift, double, dec, double(x), dec(s));
      DoubledModulo(number(x), number(double(x)), number(dec(s)));
    }
  }

  lemma LeftNumber(x: bits, s: bits)
    requires s < 32
    ensures Number(ShiftLeft(x, s)) == Number(x) * Pow2(Number(s)) % TWO32
  {
    forall v, w ensures Repeats(ShiftLeft, Double, Dec, v, w) { LeftRepeats(v, w); }
    var number := (w: bits) => Number(w);
    forall w ensures Doubles(number, Double, w) && Lowers(number, Dec, w) { DoublesAndLowers(number, w); }
    Multiplies(number, ShiftLeft, Double, Dec, x, s);
  }

  lemma DoublesAndLowers(number: bits -> nat, w: bits)
    requires forall v :: number(v) == Number(v)
    ensures Doubles(number, Double, w) && Lowers(number, Dec, w)
  {
    NumberFits(w);
    SumNumber(w, w);
    if w != 0 {
      OneLess(w);
    }
  }

  lemma DoubledModulo(n: nat, d: nat, k: nat)
    requires d == 2 * n % TWO32
    ensures d * Pow2(k) % TWO32 == n * Pow2(k + 1) % TWO32
  {
    ProductModulo(2 * n, Pow2(k));
    assert 2 * n * Pow2(k) == n * (2 * Pow2(k));
  }

  lemma ProductModulo(a: nat, p: nat)
    ensures (a % TWO32) * p % TWO32 == a * p % TWO32
  {
    var q, r := a / TWO32, a % TWO32;
    var rq, rr := r * p / TWO32, r * p % TWO32;
    assert a * p == (TWO32 * q + r) * p == TWO32 * (q * p) + r * p;
    QuotientIs(a * p, TWO32, q * p + rq, rr);
  }

  /** An arithmetic right shift divides and rounds down. */
  lemma SarNumber(x: bits, s: bits)
    requires s < 32
    ensures Signed(Sar(x, s)) == Signed(x) / Pow2(Number(s))
  {
    SignBit(x);
    if x & 0x8000_0000 != 0 {
      var r := SarDown(x, !x, s);
      SarNegative(x, !x, r, Sar(x, s), s);
    } else {
      SarUp(x, s);
      SarPositive(x, Sar(x, s), s);
    }
  }

  lemma SarUp(x: bits, s: bits)
    requires s < 32 && x & 0x8000_0000 == 0
    ensures Sar(x, s) == ShiftRight(x, s)
  {
  }

  lemma SarDown(x: bits, c: bits, s: bits) returns (r: bits)
    requires s < 32 && x & 0x8000_0000 != 0 && c == !x
    ensures r == ShiftRight(c, s) && Sar(x, s) == !r
  {
    r := ShiftRight(c, s);
  }

  lemma SarPositive(x: bits, z: bits, s: bits)
    requires s < 32 && Number(x) < 0x8000_0000 && z == ShiftRight(x, s)
    ensures Signed(z) == Signed(x) / Pow2(Number(s))
  {
    RightNumber(x, s);
    QuotientShrinks(Number(x), Pow2(Number(s)));
  }

  lemma SarNegative(x: bits, c: bits, r: bits, z: bits, s: bits)
    requires s < 32 && 0x8000_0000 <= Number(x) && c == !x && r == ShiftRight(c, s) && z == !r
    ensures Signed(z) == Signed(x) / Pow2(Number(s))
  {
    NumberFits(x);
    ComplementNumber(x);
    RightNumber(c, s);
    ComplementNumber(r);
    DownFloor(Number(x), Pow2(Number(s)), Number(z));
  }

  lemma DownFloor(n: int, p: nat, q: int)
    requires 0x8000_0000 <= n < TWO32 && p > 0 && q == TWO32 - 1 - (TWO32 - 1 - n) / p
    ensures q - TWO32 == (n - TWO32) / p && 0x8000_0000 <= q < TWO32
  {
    var c := TWO32 - 1 - n;
    QuotientShrinks(c, p);
    QuotientIs(-1 - c, p, -1 - c / p, p - 1 - c % p);
  }

  // ---- Bits ----

  /** Bitwise OR and XOR of two unsigned words, bit by bit. */
  function Or(a: nat, b: nat): nat {
    if a == 0 && b == 0 then 0 else 2 * Or(a / 2, b / 2) + (if a % 2 == 1 || b % 2 == 1 then 1 else 0)
  }

  function Xor(a: nat, b: nat): nat {
    if a == 0 && b == 0 then 0 else 2 * Xor(a / 2, b / 2) + (if a % 2 != b % 2 then 1 else 0)
  }

  /** An operation on words and one on numbers that both work on one bit at a time. */
  ghost predicate WordBitwise(f: (bits, bits) -> bits, h: (nat, nat) -> nat, x: bits, y: bits) {
    f(0, 0) == 0 && f(x, y) >> 1 == f(x >> 1, y >> 1) && Bit(f(x, y)) == h(Bit(x), Bit(y))
  }

  ghost predicate NumberBitwise(g: (nat, nat) -> nat, h: (nat, nat) -> nat, n: nat, m: nat, b: nat, e: nat) {
    g(0, 0) == 0 && (b <= 1 && e <= 1 ==> g(2 * n + b, 2 * m + e) == 2 * g(n, m) + h(b, e))
  }

  lemma {:induction false} BitwiseNumber(f: (bits, bits) -> bits, g: (nat, nat) -> nat, h: (nat, nat) -> nat,
                                         x: bits, y: bits)
    requires forall v, w :: WordBitwise(f, h, v, w)
    requires forall n, m, b, e :: NumberBitwise(g, h, n, m, b, e)
    ensures Number(f(x, y)) == g(Number(x), Number(y))
    decreases Number(x) + Number(y)
  {
    BitwiseStep(f, g, h, x, y, f(x, y));
    if x != 0 || y != 0 {
      NumberPositive2(x, y);
      Unfolded(x);
      Unfolded(y);
      BitwiseNumber(f, g, h, x >> 1, y >> 1);
    }
  }

  lemma BitwiseStep(f: (bits, bits) -> bits, g: (nat, nat) -> nat, h: (nat, nat) -> nat, x: bits, y: bits, z: bits)
    requires WordBitwise(f, h, x, y) && z == f(x, y)
    requires NumberBitwise(g, h, Number(x >> 1), Number(y >> 1), Bit(x), Bit(y))
    ensures f(0, 0) == 0 && g(0, 0) == 0
    ensures Number(f(x >> 1, y >> 1)) == g(Number(x >> 1), Number(y >> 1)) ==> Number(z) == g(Number(x), Number(y))
  {
    Unfolded(x);
    Unfolded(y);
    Unfolded(z);
  }

  lemma Parts(n: nat, b: nat)
    requires b <= 1
    ensures (2 * n + b) / 2 == n && (2 * n + b) % 2 == b
  {
  }

  function BothBits(x: bits, y: bits): bits { x & y }

  function EitherBit(x: bits, y: bits): bits { x | y }

  function OneBit(x: bits, y: bits): bits { x ^ y }

  function BothOf(b: nat, e: nat): nat { b * e }

  function EitherOf(b: nat, e: nat): nat { if b == 1 || e == 1 then 1 else 0 }

  function OneOf(b: nat, e: nat): nat { if b != e then 1 else 0 }

  lemma AndNumbers(n: nat, m: nat, b: nat, e: nat)
    ensures NumberBitwise(And, BothOf, n, m, b, e)
  {
    if b <= 1 && e <= 1 {
      Parts(n, b);
      Parts(m, e);
    }
  }

  lemma AndWords(x: bits, y: bits)
    ensures WordBitwise(BothBits, BothOf, x, y)
  {
  }

  lemma AndNumber(x: bits, y: bits)
    ensures Number(x & y) == And(Number(x), Number(y))
  {
    forall v, w ensures WordBitwise(BothBits, BothOf, v, w) { AndWords(v, w); }
    forall n, m, b, e ensures NumberBitwise(And, BothOf, n, m, b, e) { AndNumbers(n, m, b, e); }
    BitwiseNumber(BothBits, And, BothOf, x, y);
  }

  lemma OrStep(n: nat, m: nat, b: nat, e: nat)
    requires b <= 1 && e <= 1
    ensures Or(2 * n + b, 2 * m + e) == 2 * Or(n, m) + (if b == 1 || e == 1 then 1 else 0)
  {
    Parts(n, b);
    Parts(m, e);
  }

  lemma OrNumbers(n: nat, m: nat, b: nat, e: nat)
    ensures NumberBitwise(Or, EitherOf, n, m, b, e)
  {
    if b <= 1 && e <= 1 {
      OrStep(n, m, b, e);
    }
  }

  lemma OrHalves(x: bits, y: bits)
    ensures (x | y) >> 1 == (x >> 1) | (y >> 1)
    ensures Bit(x | y) == (if Bit(x) == 1 || Bit(y) == 1 then 1 else 0)
  {
  }

  lemma OrWords(x: bits, y: bits)
    ensures WordBitwise(EitherBit, EitherOf, x, y)
  {
    OrHalves(x, y);
  }

  lemma OrNumber(x: bits, y: bits)
    ensures Number(x | y) == Or(Number(x), Number(y))
  {
    forall v, w ensures WordBitwise(EitherBit, EitherOf, v, w) { OrWords(v, w); }
    forall n, m, b, e ensures NumberBitwise(Or, EitherOf, n, m, b, e) { OrNumbers(n, m, b, e); }
    BitwiseNumber(EitherBit, Or, EitherOf, x, y);
  }

  lemma XorStep(n: nat, m: nat, b: nat, e: nat)
    requires b <= 1 && e <= 1
    ensures Xor(2 * n + b, 2 * m + e) == 2 * Xor(n, m) + (if b != e then 1 else 0)
  {
    Parts(n, b);
    Parts(m, e);
  }

  lemma XorNumbers(n: nat, m: nat, b: nat, e: nat)
    ensures NumberBitwise(Xor, OneOf, n, m, b, e)
  {
    if b <= 1 && e <= 1 {
      XorStep(n, m, b, e);
    }
  }

  lemma XorHalves(x: bits, y: bits)
    ensures (x ^ y) >> 1 == (x >> 1) ^ (y >> 1)
    ensures Bit(x ^ y) == (if Bit(x) != Bit(y) then 1 else 0)
  {
  }

  lemma XorWords(x: bits, y: bits)
    ensures WordBitwise(OneBit, OneOf, x, y)
  {
    XorHalves(x, y);
  }

  lemma XorNumber(x: bits, y: bits)
    ensures Number(x ^ y) == Xor(Number(x), Number(y))
  {
    forall v, w ensures WordBitwise(OneBit, OneOf, v, w) { XorWords(v, w); }
    forall n, m, b, e ensures NumberBitwise(Xor, OneOf, n, m, b, e) { XorNumbers(n, m, b, e); }
    BitwiseNumber(OneBit, Xor, OneOf, x, y);
  }

  // ---- Words of numbers ----

  /** Every number below 2^32 is the value of its word. */
  lemma {:induction false} NumberOfWord(n: nat)
    requires n < TWO32
    ensures Number(Word32(n)) == n
  {
    if n > 0 {
      NumberOfWord(n / 2);
      Appended(Word32(n / 2), if n % 2 == 1 then 1 else 0);
    }
  }

  lemma Appended(w: bits, b: bits)
    requires Number(w) < 0x8000_0000 && b <= 1
    ensures Number((w << 1) | b) == 2 * Number(w) + (if b == 1 then 1 else 0)
  {
    HalfRange();
    LessIff(w, 0x8000_0000);
    AppendedBits(w, b);
    Unfolded((w << 1) | b);
  }

  lemma AppendedBits(w: bits, b: bits)
    requires w < 0x8000_0000 && b <= 1
    ensures ((w << 1) | b) >> 1 == w && Bit((w << 1) | b) == (if b == 1 then 1 else 0)
  {
  }

  /** The value of a word as a 32-bit number. */
  function Value(w: bits): (v: uint32)
    ensures v == Number(w)
  {
    NumberFits(w);
    Number(w)
  }
}
