/** The bit-parallel population count that sizes the dispatch quorum. */
module PulpPopcount {

  function Bit(x: bv32, i: bv32): bv32
    requires i < 32
  {
    (x >> i) & 1
  }

  /** The word seen as sixteen 2-bit, eight 4-bit or four 8-bit fields. */
  function Pair(x: bv32, i: bv32): bv32
    requires i < 16
  {
    (x >> (2 * i)) & 3
  }

  function Nibble(x: bv32, i: bv32): bv32
    requires i < 8
  {
    (x >> (4 * i)) & 15
  }

  function Byte(x: bv32, i: bv32): bv32
    requires i < 4
  {
    (x >> (8 * i)) & 255
  }

  function Stage1(x: bv32): bv32 {
    x - ((x >> 1) & 0x55555555)
  }

  function Stage2(x: bv32): bv32 {
    (x & 0x33333333) + ((x >> 2) & 0x33333333)
  }

  function Stage3(x: bv32): bv32 {
    (x + (x >> 4)) & 0x0f0f0f0f
  }

  /** The final product, whose top byte collects the four bytes of the word. */
  function Collect(x: bv32): bv32 {
    (x * 0x01010101) >> 24
  }

  function Popcount(x: bv32): bv32 {
    Collect(Stage3(Stage2(Stage1(x))))
  }

  /** After the first stage every 2-bit field counts its own two bits: no borrow
      crosses a field. */
  lemma {:induction false} Stage1Fields(x: bv32, i: bv32)
    requires i < 16
    ensures Pair(Stage1(x), i) == Bit(x, 2 * i) + Bit(x, 2 * i + 1)
  {
    if i == 0 { } else if i == 1 { } else if i == 2 { } else if i == 3 { } else if i == 4 { } else if i == 5 { }
    else if i == 6 { } else if i == 7 { } else if i == 8 { } else if i == 9 { } else if i == 10 { }
    else if i == 11 { } else if i == 12 { } else if i == 13 { } else if i == 14 { } else { assert i == 15; }
  }

  /** After the second, every 4-bit field is the sum of its two 2-bit fields, and
      leaves room for one more addition. */
  lemma {:induction false} Stage2Fields(x: bv32, i: bv32)
    requires i < 8
    ensures Nibble(Stage2(x), i) == Pair(x, 2 * i) + Pair(x, 2 * i + 1)
  {
  }

  /** After the third, every 8-bit field is the sum of its two 4-bit fields: what the
      second stage leaves in them is small enough that no carry crosses a field. */
  lemma {:induction false} Stage3Fields(x: bv32, i: bv32)
    requires i < 4
    ensures Byte(Stage3(Stage2(x)), i) == Nibble(Stage2(x), 2 * i) + Nibble(Stage2(x), 2 * i + 1)
  {
  }

  function SumFour(a: bv32, b: bv32, c: bv32, d: bv32): bv32 {
    (a + b) + (c + d)
  }

  /** The final product collects the four bytes in the top one. */
  lemma {:induction false} CollectBytes(z: bv32)
    requires z & 0x0f0f0f0f == z
    ensures Collect(z) == SumFour((z >> 24) & 255, (z >> 16) & 255, (z >> 8) & 255, z & 255)
  {
  }

  /** The bits of one byte, added up. */
  function ByteBits(x: bv32): bv32 {
    TreeSum(x & 1, (x >> 1) & 1, (x >> 2) & 1, (x >> 3) & 1, (x >> 4) & 1, (x >> 5) & 1, (x >> 6) & 1, (x >> 7) & 1)
  }

  function TreeSum(a: bv32, b: bv32, c: bv32, d: bv32, e: bv32, f: bv32, g: bv32, h: bv32): bv32 {
    ((a + b) + (c + d)) + ((e + f) + (g + h))
  }

  /** Each byte of the last intermediate word counts its own eight bits. */
  lemma {:induction false} Byte0Counts(x: bv32)
    ensures Stage3(Stage2(Stage1(x))) & 255 == ByteBits(x)
  {
  }

  lemma {:induction false} Byte1Counts(x: bv32)
    ensures (Stage3(Stage2(Stage1(x))) >> 8) & 255 == ByteBits(x >> 8)
  {
  }

  lemma {:induction false} Byte2Counts(x: bv32)
    ensures (Stage3(Stage2(Stage1(x))) >> 16) & 255 == ByteBits(x >> 16)
  {
  }

  lemma {:induction false} Byte3Counts(x: bv32)
    ensures (Stage3(Stage2(Stage1(x))) >> 24) & 255 == ByteBits(x >> 24)
  {
  }

  /** The number of set bits among the lowest `n`, one bit at a time. */
  function CountBits(x: bv32, n: nat): nat {
    if n == 0 then 0 else CountBits(x >> 1, n - 1) + if x & 1 == 1 then 1 else 0
  }

  lemma {:induction false} AddSmall(p: bv32, q: bv32)
    requires p <= 16 && q <= 16
    ensures (p + q) as nat == p as nat + q as nat
  {
  }

  lemma {:induction false} AddFour(a: bv32, b: bv32, c: bv32, d: bv32)
    requires a <= 8 && b <= 8 && c <= 8 && d <= 8
    ensures SumFour(a, b, c, d) as nat == a as nat + b as nat + c as nat + d as nat
  {
    AddSmall(a, b);
    AddSmall(c, d);
    AddSmall(a + b, c + d);
  }

  function BitValue(x: bv32): nat {
    if x & 1 == 1 then 1 else 0
  }

  lemma {:induction false} CountStep(x: bv32, y: bv32, n: nat)
    requires n >= 1 && y == x >> 1
    ensures CountBits(x, n) == CountBits(y, n - 1) + BitValue(x)
  {
  }

  lemma {:induction false} CountFour(x0: bv32, x1: bv32, x2: bv32, x3: bv32, x4: bv32, n: nat)
    requires n >= 4 && x1 == x0 >> 1 && x2 == x1 >> 1 && x3 == x2 >> 1 && x4 == x3 >> 1
    ensures CountBits(x0, n) == CountBits(x4, n - 4) + BitValue(x0) + BitValue(x1) + BitValue(x2) + BitValue(x3)
  {
    CountStep(x0, x1, n);
    CountStep(x1, x2, n - 1);
    CountStep(x2, x3, n - 2);
    CountStep(x3, x4, n - 3);
  }

  lemma {:induction false} CountEight(x0: bv32, x1: bv32, x2: bv32, x3: bv32, x4: bv32,
                                      x5: bv32, x6: bv32, x7: bv32, x8: bv32, n: nat)
    requires n >= 8 && x1 == x0 >> 1 && x2 == x1 >> 1 && x3 == x2 >> 1 && x4 == x3 >> 1
    requires x5 == x4 >> 1 && x6 == x5 >> 1 && x7 == x6 >> 1 && x8 == x7 >> 1
    ensures CountBits(x0, n) == CountBits(x8, n - 8) + BitValue(x0) + BitValue(x1) + BitValue(x2) + BitValue(x3)
                                + BitValue(x4) + BitValue(x5) + BitValue(x6) + BitValue(x7)
  {
    CountFour(x0, x1, x2, x3, x4, n);
    CountFour(x4, x5, x6, x7, x8, n - 4);
  }

  /** Walking a byte one shift at a time visits the bits ByteBits adds up, and ends at
      the next byte. */
  lemma {:induction false} ByteChain(x0: bv32, x1: bv32, x2: bv32, x3: bv32, x4: bv32, x5: bv32, x6: bv32, x7: bv32, x8: bv32)
    requires x1 == x0 >> 1 && x2 == x1 >> 1 && x3 == x2 >> 1 && x4 == x3 >> 1
    requires x5 == x4 >> 1 && x6 == x5 >> 1 && x7 == x6 >> 1 && x8 == x7 >> 1
    ensures ByteBits(x0) == TreeSum(x0 & 1, x1 & 1, x2 & 1, x3 & 1, x4 & 1, x5 & 1, x6 & 1, x7 & 1)
    ensures x8 == x0 >> 8
  {
  }

  lemma {:induction false} ByteValue(x0: bv32, x1: bv32, x2: bv32, x3: bv32, x4: bv32, x5: bv32, x6: bv32, x7: bv32, b: bv32)
    requires b == TreeSum(x0 & 1, x1 & 1, x2 & 1, x3 & 1, x4 & 1, x5 & 1, x6 & 1, x7 & 1)
    ensures b <= 8
    ensures b as nat == BitValue(x0) + BitValue(x1) + BitValue(x2) + BitValue(x3)
                        + BitValue(x4) + BitValue(x5) + BitValue(x6) + BitValue(x7)
  {
  }

  /** Counting the low eight bits of a word. */
  lemma {:induction false} CountByte(x: bv32, b: bv32, n: nat) returns (y: bv32)
    requires n >= 8 && b == ByteBits(x)
    ensures y == x >> 8 && b <= 8
    ensures CountBits(x, n) == CountBits(y, n - 8) + b as nat
  {
    var x1 := x >> 1;
    var x2 := x1 >> 1;
    var x3 := x2 >> 1;
    var x4 := x3 >> 1;
    var x5 := x4 >> 1;
    var x6 := x5 >> 1;
    var x7 := x6 >> 1;
    y := x7 >> 1;
    ByteChain(x, x1, x2, x3, x4, x5, x6, x7, y);
    ByteValue(x, x1, x2, x3, x4, x5, x6, x7, b);
    CountEight(x, x1, x2, x3, x4, x5, x6, x7, y, n);
  }

  lemma {:induction false} MaskedOf(y: bv32, z: bv32)
    requires z == Stage3(y)
    ensures z & 0x0f0f0f0f == z
  {
  }

  lemma {:induction false} StageBytes(x: bv32, z: bv32) returns (b0: bv32, b1: bv32, b2: bv32, b3: bv32)
    requires z == Stage3(Stage2(Stage1(x)))
    ensures b0 == z & 255 && b1 == (z >> 8) & 255 && b2 == (z >> 16) & 255 && b3 == (z >> 24) & 255
    ensures b0 == ByteBits(x) && b1 == ByteBits(x >> 8) && b2 == ByteBits(x >> 16) && b3 == ByteBits(x >> 24)
  {
    hide Stage1, Stage2, Stage3, ByteBits;
    b0, b1, b2, b3 := ByteBits(x), ByteBits(x >> 8), ByteBits(x >> 16), ByteBits(x >> 24);
    Byte0Counts(x);
    Byte1Counts(x);
    Byte2Counts(x);
    Byte3Counts(x);
  }

  lemma {:induction false} PopcountParts(x: bv32, p: bv32) returns (b0: bv32, b1: bv32, b2: bv32, b3: bv32)
    requires p == Popcount(x)
    ensures p == SumFour(b3, b2, b1, b0)
    ensures b0 == ByteBits(x) && b1 == ByteBits(x >> 8) && b2 == ByteBits(x >> 16) && b3 == ByteBits(x >> 24)
  {
    var z := Stage3(Stage2(Stage1(x)));
    b0, b1, b2, b3 := StageBytes(x, z);
    MaskedOf(Stage2(Stage1(x)), z);
    CollectBytes(z);
  }

  lemma {:induction false} ShiftBytes(x0: bv32, x1: bv32, x2: bv32, x3: bv32)
    requires x1 == x0 >> 8 && x2 == x1 >> 8 && x3 == x2 >> 8
    ensures x2 == x0 >> 16 && x3 == x0 >> 24
  {
  }

  lemma {:induction false} CountFourBytes(x: bv32, b0: bv32, b1: bv32, b2: bv32, b3: bv32)
    requires b0 == ByteBits(x) && b1 == ByteBits(x >> 8) && b2 == ByteBits(x >> 16) && b3 == ByteBits(x >> 24)
    ensures b0 <= 8 && b1 <= 8 && b2 <= 8 && b3 <= 8
    ensures CountBits(x, 32) == b0 as nat + b1 as nat + b2 as nat + b3 as nat
  {
    ghost var x1 := CountByte(x, b0, 32);
    ghost var x2 := x1 >> 8;
    ghost var x3 := x2 >> 8;
    ShiftBytes(x, x1, x2, x3);
    x2 := CountByte(x1, b1, 24);
    x3 := CountByte(x2, b2, 16);
    ghost var x4 := CountByte(x3, b3, 8);
  }

  /** The bit-parallel count is the number of bits set in the word. */
  lemma {:induction false} PopcountCounts(x: bv32, p: bv32)
    requires p == Popcount(x)
    ensures p as nat == CountBits(x, 32)
  {
    var b0, b1, b2, b3 := PopcountParts(x, p);
    CountFourBytes(x, b0, b1, b2, b3);
    AddFour(b3, b2, b1, b0);
  }

  /** Whether bit `i` is set, found by shifting it down to the lowest place. */
  predicate Has(x: bv32, i: nat) {
    if i == 0 then x & 1 == 1 else Has(x >> 1, i - 1)
  }

  lemma {:induction false} OneLess(k: bv32)
    requires 0 < k < 32
    ensures (k - 1) as nat == k as nat - 1
  {
  }

  lemma {:induction false} ShiftAgain(x: bv32, y: bv32, k: bv32)
    requires 0 < k < 32 && y == x >> 1
    ensures y >> (k - 1) == x >> k
  {
  }

  predicate BitSet(x: bv32, k: bv32)
    requires k < 32
  {
    (x >> k) & 1 == 1
  }

  /** It is bit `k` of the word. */
  lemma {:induction false} HasIsBit(x: bv32, k: bv32, i: nat)
    requires k < 32 && i == k as nat
    ensures Has(x, i) <==> BitSet(x, k)
    decreases i
  {
    if k > 0 {
      OneLess(k);
      ShiftAgain(x, x >> 1, k);
      HasIsBit(x >> 1, k - 1, i - 1);
    }
  }

  /** The cores that a mask of `n` bits selects. */
  function Selected(x: bv32, n: nat): set<nat> {
    set i: nat | i < n && Has(x, i)
  }

  lemma {:induction false} CountTop(x: bv32, n: nat)
    ensures CountBits(x, n + 1) == CountBits(x, n) + if Has(x, n) then 1 else 0
  {
    if n == 0 {
      assert CountBits(x >> 1, 0) == 0;
    } else {
      CountTop(x >> 1, n - 1);
    }
  }

  lemma {:induction false} SelectedTop(x: bv32, n: nat)
    ensures Selected(x, n + 1) == Selected(x, n) + if Has(x, n) then {n} else {}
    ensures n !in Selected(x, n)
  {
  }

  lemma {:induction false} CountSelects(x: bv32, n: nat)
    ensures |Selected(x, n)| == CountBits(x, n)
  {
    if n == 0 {
      assert Selected(x, n) == {};
    } else {
      CountSelects(x, n - 1);
      CountTop(x, n - 1);
      SelectedTop(x, n - 1);
    }
  }

  /** The quorum written for a mask is the number of cores the mask selects. */
  lemma {:induction false} PopcountSelects(x: bv32, p: bv32)
    requires p == Popcount(x)
    ensures p as nat == |Selected(x, 32)|
  {
    PopcountCounts(x, p);
    CountSelects(x, 32);
  }
}
