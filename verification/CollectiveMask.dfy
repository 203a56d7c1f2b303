/** Which tiles a collective transaction reaches, on a mesh of 2^w by 2^h tiles: the masks of
    the row, the column and the whole mesh, and the address that marks a collective.
    Addresses and masks are numbers, read bit by bit. */
module CollectiveMask {
  import Arith
  import opened Digits

  datatype Geometry = All | Column | Row

  /** Tiles lie a megabyte apart in a 32-bit address space, so no mesh has more than 2^12. */
  const MAX_LOG := 12

  const TILE_BIT := 20
  const L1_BASE := 0x0002_0000
  const COLLECTIVE := 0xB000_0000
  const TOP_NIBBLE := 0x1000_0000

  /** Bit `b` of a number. */
  predicate Bit(x: nat, b: nat) {
    if b == 0 then x % 2 == 1 else Bit(x / 2, b - 1)
  }

  /** The bits that are set in either. */
  function Or(x: nat, y: nat): nat
    decreases x + y
  {
    if x + y == 0 then 0 else 2 * Or(x / 2, y / 2) + if x % 2 == 1 || y % 2 == 1 then 1 else 0
  }

  function ShiftLeft(x: nat, s: nat): nat {
    x * Pow(2, s)
  }

  /** The side mask of 2^n tiles as the code computes it: the square root less one, cut to a
      whole number. */
  function SideMask(n: nat): nat
    requires n <= MAX_LOG
  {
    if n == 0 then 0 else if n == 1 then 0 else if n == 2 then 1 else if n == 3 then 1 else
    if n == 4 then 3 else if n == 5 then 4 else if n == 6 then 7 else if n == 7 then 10 else
    if n == 8 then 15 else if n == 9 then 21 else if n == 10 then 31 else if n == 11 then 44 else 63
  }

  /** It is one below the whole square root. */
  lemma {:induction false} SideMaskIsRoot(n: nat)
    requires n <= MAX_LOG
    ensures var root := SideMask(n) + 1;
            root * root <= Pow(2, n) < (root + 1) * (root + 1)
  {
    PowerTable(n);
  }

  /** The bits of a tile's address that a collective over 2^n tiles does not look at. */
  function Mask(n: nat, geometry: Geometry): nat
    requires n <= MAX_LOG
  {
    MaskOf(SideMask(n), n / 2, geometry)
  }

  function MaskOf(mask: nat, shift: nat, geometry: Geometry): nat {
    match geometry
    case All => Or(ShiftLeft(mask, TILE_BIT), ShiftLeft(mask, TILE_BIT + shift))
    case Column => ShiftLeft(mask, TILE_BIT + shift)
    case Row => ShiftLeft(mask, TILE_BIT)
  }

  function Base(tile: nat): nat {
    ShiftLeft(tile, TILE_BIT)
  }

  /** A router forwards to every tile whose address agrees with the one sent to on the bits
      outside the mask. */
  predicate Reaches(mask: nat, address: nat, tile: nat) {
    forall b :: 0 <= b < 32 && !Bit(mask, b) ==> Bit(Base(tile), b) == Bit(address, b)
  }

  // ---------------------------------------------------------------- bits of numbers

  lemma {:induction false} PowerTable(n: nat)
    requires n <= MAX_LOG
    ensures Pow(2, n) == (if n == 0 then 1 else if n == 1 then 2 else if n == 2 then 4 else if n == 3 then 8 else
                         if n == 4 then 16 else if n == 5 then 32 else if n == 6 then 64 else if n == 7 then 128 else
                         if n == 8 then 256 else if n == 9 then 512 else if n == 10 then 1024 else if n == 11 then 2048 else 4096)
  {
    if n > 0 {
      PowerTable(n - 1);
    }
  }

  lemma {:induction false} BitDouble(x: nat, b: nat)
    ensures Bit(2 * x, b) <==> b > 0 && Bit(x, b - 1)
  {
  }

  lemma {:induction false} BitShift(x: nat, s: nat, b: nat)
    ensures Bit(ShiftLeft(x, s), b) <==> b >= s && Bit(x, b - s)
  {
    if s > 0 {
      assert ShiftLeft(x, s) == 2 * ShiftLeft(x, s - 1);
      BitDouble(ShiftLeft(x, s - 1), b);
      if b > 0 {
        BitShift(x, s - 1, b - 1);
      }
    }
  }

  lemma {:induction false} BitOr(x: nat, y: nat, b: nat)
    ensures Bit(Or(x, y), b) <==> Bit(x, b) || Bit(y, b)
    decreases b
  {
    var z := Or(x, y);
    assert z % 2 == (if x % 2 == 1 || y % 2 == 1 then 1 else 0) && z / 2 == Or(x / 2, y / 2);
    if b > 0 {
      BitOr(x / 2, y / 2, b - 1);
    }
  }

  lemma {:induction false} NoBit(b: nat)
    ensures !Bit(0, b)
  {
    if b > 0 {
      NoBit(b - 1);
    }
  }

  lemma {:induction false} OneBit(c: nat, b: nat)
    ensures Bit(Pow(2, c), b) <==> b == c
  {
    BitShift(1, c, b);
    if b > c {
      NoBit(b - c - 1);
    }
  }

  lemma {:induction false} OnesBits(n: nat, b: nat)
    ensures Pow(2, n) >= 1 && (Bit(Pow(2, n) - 1, b) <==> b < n)
  {
    PowPositive(2, n);
    if n == 0 {
      NoBit(b);
    } else {
      PowPositive(2, n - 1);
      var half := Pow(2, n - 1) - 1;
      assert (2 * half + 1) / 2 == half && (2 * half + 1) % 2 == 1;
      if b > 0 {
        OnesBits(n - 1, b - 1);
      }
    }
  }

  lemma {:induction false} HighBitsClear(x: nat, n: nat, b: nat)
    requires x < Pow(2, n) && b >= n
    ensures !Bit(x, b)
    decreases n
  {
    if n == 0 {
      NoBit(b);
    } else {
      HighBitsClear(x / 2, n - 1, b - 1);
    }
  }

  /** Two numbers agree below bit `w`. */
  predicate AgreeBelow(x: nat, y: nat, w: nat) {
    forall b :: 0 <= b < w ==> Bit(x, b) == Bit(y, b)
  }

  lemma {:induction false} AgreeHalves(x: nat, y: nat, w: nat)
    requires w > 0
    ensures AgreeBelow(x, y, w) <==> x % 2 == y % 2 && AgreeBelow(x / 2, y / 2, w - 1)
  {
    if AgreeBelow(x, y, w) {
      assert Bit(x, 0) == Bit(y, 0);
      forall b | 0 <= b < w - 1 ensures Bit(x / 2, b) == Bit(y / 2, b) {
        assert Bit(x, b + 1) == Bit(y, b + 1);
      }
    } else if x % 2 == y % 2 {
      var b :| 0 <= b < w && Bit(x, b) != Bit(y, b);
      assert Bit(x / 2, b - 1) != Bit(y / 2, b - 1);
    }
  }

  lemma {:induction false} RemainderHalves(x: nat, m: nat)
    requires m > 0
    ensures x % (2 * m) == 2 * (x / 2 % m) + x % 2
    ensures x / (2 * m) == x / 2 / m
  {
    Arith.DivModUnique(x, 2 * m, x / 2 / m, 2 * (x / 2 % m) + x % 2);
  }

  /** The bits below `w` are the remainder by 2^w. */
  lemma {:induction false} LowBits(x: nat, y: nat, w: nat)
    ensures Pow(2, w) > 0
    ensures AgreeBelow(x, y, w) <==> x % Pow(2, w) == y % Pow(2, w)
  {
    PowPositive(2, w);
    if w > 0 {
      PowPositive(2, w - 1);
      AgreeHalves(x, y, w);
      LowBits(x / 2, y / 2, w - 1);
      RemainderHalves(x, Pow(2, w - 1));
      RemainderHalves(y, Pow(2, w - 1));
    }
  }

  lemma {:induction false} SameNumber(x: nat, y: nat, n: nat)
    requires x < Pow(2, n) && y < Pow(2, n)
    ensures AgreeBelow(x, y, n) <==> x == y
  {
    LowBits(x, y, n);
    Arith.DivModUnique(x, Pow(2, n), 0, x);
    Arith.DivModUnique(y, Pow(2, n), 0, y);
  }

  lemma {:induction false} BitOfQuotient(x: nat, w: nat, b: nat)
    ensures Pow(2, w) > 0 && Bit(x / Pow(2, w), b) == Bit(x, b + w)
  {
    PowPositive(2, w);
    if w > 0 {
      PowPositive(2, w - 1);
      RemainderHalves(x, Pow(2, w - 1));
      BitOfQuotient(x / 2, w - 1, b);
    }
  }

  /** Two numbers agree from bit `w` on, below bit `n`. */
  predicate AgreeFrom(x: nat, y: nat, w: nat, n: nat) {
    forall b :: w <= b < n ==> Bit(x, b) == Bit(y, b)
  }

  lemma {:induction false} AgreeQuotients(x: nat, y: nat, w: nat, n: nat, p: nat, q: nat)
    requires w <= n && Pow(2, w) > 0 && p == x / Pow(2, w) && q == y / Pow(2, w)
    ensures AgreeFrom(x, y, w, n) <==> AgreeBelow(p, q, n - w)
  {
    if AgreeFrom(x, y, w, n) {
      forall b | 0 <= b < n - w ensures Bit(p, b) == Bit(q, b) {
        BitOfQuotient(x, w, b);
        BitOfQuotient(y, w, b);
        assert Bit(x, b + w) == Bit(y, b + w);
      }
    } else {
      var b :| w <= b < n && Bit(x, b) != Bit(y, b);
      BitOfQuotient(x, w, b - w);
      BitOfQuotient(y, w, b - w);
      assert Bit(p, b - w) != Bit(q, b - w);
    }
  }

  /** The bits from `w` on are the quotient by 2^w. */
  lemma {:induction false} HighBits(x: nat, y: nat, w: nat, n: nat)
    requires w <= n && x < Pow(2, n) && y < Pow(2, n)
    ensures Pow(2, w) > 0
    ensures AgreeFrom(x, y, w, n) <==> x / Pow(2, w) == y / Pow(2, w)
  {
    PowPositive(2, w);
    var d := Pow(2, w);
    HighBitsOf(x, y, w, n, d, x / d, y / d);
  }

  lemma {:induction false} HighBitsOf(x: nat, y: nat, w: nat, n: nat, d: nat, p: nat, q: nat)
    requires w <= n && d > 0 && d == Pow(2, w) && p == x / d && q == y / d
    requires x < Pow(2, n) && y < Pow(2, n)
    ensures AgreeFrom(x, y, w, n) <==> p == q
  {
    QuotientBelow(x, w, n);
    QuotientBelow(y, w, n);
    SameNumber(p, q, n - w);
    AgreeQuotients(x, y, w, n, p, q);
  }

  lemma {:induction false} QuotientBelow(x: nat, w: nat, n: nat)
    requires w <= n && x < Pow(2, n)
    ensures Pow(2, w) > 0 && x / Pow(2, w) < Pow(2, n - w)
    decreases w
  {
    PowPositive(2, w);
    if w > 0 {
      PowPositive(2, w - 1);
      RemainderHalves(x, Pow(2, w - 1));
      QuotientBelow(x / 2, w - 1, n - 1);
    }
  }

  // ---------------------------------------------------------------- what the masks reach

  /** Two tiles agree on the bits, of 2^n tiles, that are not in `k`. */
  predicate AgreeOutside(k: nat, i: nat, j: nat, n: nat) {
    forall b :: 0 <= b < n && !Bit(k, b) ==> Bit(i, b) == Bit(j, b)
  }

  /** Only the tile numbers matter. */
  lemma {:induction false} ReachesIff(k: nat, i: nat, j: nat, n: nat)
    requires n <= MAX_LOG && i < Pow(2, n) && j < Pow(2, n)
    ensures Reaches(ShiftLeft(k, TILE_BIT), Base(j), i) <==> AgreeOutside(k, i, j, n)
  {
    var mask := ShiftLeft(k, TILE_BIT);
    if AgreeOutside(k, i, j, n) {
      forall b | 0 <= b < 32 && !Bit(mask, b) ensures Bit(Base(i), b) == Bit(Base(j), b) {
        BitShift(k, TILE_BIT, b);
        BitShift(i, TILE_BIT, b);
        BitShift(j, TILE_BIT, b);
        if b - TILE_BIT >= n {
          HighBitsClear(i, n, b - TILE_BIT);
          HighBitsClear(j, n, b - TILE_BIT);
        }
      }
    } else {
      var b :| 0 <= b < n && !Bit(k, b) && Bit(i, b) != Bit(j, b);
      BitShift(k, TILE_BIT, b + TILE_BIT);
      BitShift(i, TILE_BIT, b + TILE_BIT);
      BitShift(j, TILE_BIT, b + TILE_BIT);
      assert !Bit(mask, b + TILE_BIT) && Bit(Base(i), b + TILE_BIT) != Bit(Base(j), b + TILE_BIT);
    }
  }

  /** The bits in [lo, hi). */
  function Run(lo: nat, hi: nat): nat
    requires lo <= hi
  {
    PowPositive(2, hi - lo);
    ShiftLeft(Pow(2, hi - lo) - 1, lo)
  }

  lemma {:induction false} RunBits(lo: nat, hi: nat, b: nat)
    requires lo <= hi
    ensures Bit(Run(lo, hi), b) <==> lo <= b < hi
  {
    PowPositive(2, hi - lo);
    BitShift(Pow(2, hi - lo) - 1, lo, b);
    if b >= lo {
      OnesBits(hi - lo, b - lo);
    }
  }

  /** `k` holds exactly the bits in [lo, hi) of 2^n tiles. */
  predicate IsRun(k: nat, lo: nat, hi: nat, n: nat) {
    forall b :: 0 <= b < n ==> (Bit(k, b) <==> lo <= b < hi)
  }

  lemma {:induction false} IsRunIff(k: nat, lo: nat, hi: nat, n: nat)
    requires lo <= hi <= n && k < Pow(2, n) && Run(lo, hi) < Pow(2, n)
    ensures IsRun(k, lo, hi, n) <==> k == Run(lo, hi)
  {
    forall b | 0 <= b < n ensures Bit(Run(lo, hi), b) <==> lo <= b < hi {
      RunBits(lo, hi, b);
    }
    SameNumber(k, Run(lo, hi), n);
    assert IsRun(k, lo, hi, n) <==> AgreeBelow(k, Run(lo, hi), n) by {
      if AgreeBelow(k, Run(lo, hi), n) {
        forall b | 0 <= b < n ensures Bit(k, b) <==> lo <= b < hi {
          assert Bit(k, b) == Bit(Run(lo, hi), b);
        }
      }
    }
  }

  lemma {:induction false} PowGrows(m: nat, n: nat)
    requires m < n
    ensures Pow(2, m) < Pow(2, n)
  {
    PowPositive(2, n - 1);
    if m < n - 1 {
      PowGrows(m, n - 1);
    }
  }

  /** A column mask in the bits of the tile. */
  predicate SelectsColumns(k: nat, w: nat, n: nat) {
    forall i, j :: 0 <= i < Pow(2, n) && 0 <= j < Pow(2, n) ==> ColumnRight(k, w, n, i, j)
  }

  predicate ColumnRight(k: nat, w: nat, n: nat, i: nat, j: nat) {
    PowPositive(2, w);
    AgreeOutside(k, i, j, n) <==> i % Pow(2, w) == j % Pow(2, w)
  }

  predicate SelectsRows(k: nat, w: nat, n: nat) {
    forall i, j :: 0 <= i < Pow(2, n) && 0 <= j < Pow(2, n) ==> RowRight(k, w, n, i, j)
  }

  predicate RowRight(k: nat, w: nat, n: nat, i: nat, j: nat) {
    PowPositive(2, w);
    AgreeOutside(k, i, j, n) <==> i / Pow(2, w) == j / Pow(2, w)
  }

  predicate SelectsAll(k: nat, n: nat) {
    forall i, j :: 0 <= i < Pow(2, n) && 0 <= j < Pow(2, n) ==> AgreeOutside(k, i, j, n)
  }

  /** Tile 2^b against tile 0: it agrees outside the mask exactly if the mask has bit `b`. */
  lemma {:induction false} OneBitAgrees(k: nat, b: nat, n: nat)
    requires b < n
    ensures Pow(2, b) < Pow(2, n) && (AgreeOutside(k, Pow(2, b), 0, n) <==> Bit(k, b))
  {
    PowGrows(b, n);
    forall c | 0 <= c < n ensures !Bit(0, c) && (Bit(Pow(2, b), c) <==> c == b) {
      NoBit(c);
      OneBit(b, c);
    }
    if !Bit(k, b) {
      assert Bit(Pow(2, b), b) != Bit(0, b);
    }
  }

  /** A power of two in remainders and quotients by another. */
  lemma {:induction false} PowerPlace(b: nat, w: nat)
    ensures Pow(2, w) > 0
    ensures b < w ==> Pow(2, b) % Pow(2, w) != 0 && Pow(2, b) / Pow(2, w) == 0
    ensures b >= w ==> Pow(2, b) % Pow(2, w) == 0 && Pow(2, b) / Pow(2, w) > 0
  {
    PowPositive(2, w);
    PowPositive(2, b);
    if b < w {
      PowGrows(b, w);
      Arith.DivModUnique(Pow(2, b), Pow(2, w), 0, Pow(2, b));
    } else {
      PowAdd(2, w, b - w);
      PowPositive(2, b - w);
      Multiple(Pow(2, b), Pow(2, b - w), Pow(2, w));
    }
  }

  lemma Multiple(x: nat, q: nat, d: nat)
    requires d > 0 && x == d * q
    ensures x % d == 0 && x / d == q
  {
    Arith.DivModUnique(x, d, q, 0);
  }

  lemma {:induction false} ColumnPatternIff(k: nat, w: nat, n: nat)
    requires w <= n
    ensures SelectsColumns(k, w, n) <==> IsRun(k, w, n, n)
  {
    if IsRun(k, w, n, n) {
      forall i, j | 0 <= i < Pow(2, n) && 0 <= j < Pow(2, n) ensures ColumnRight(k, w, n, i, j) {
        LowBits(i, j, w);
        assert AgreeOutside(k, i, j, n) <==> AgreeBelow(i, j, w);
      }
    } else {
      var b :| 0 <= b < n && Bit(k, b) != (w <= b < n);
      OneBitAgrees(k, b, n);
      PowerPlace(b, w);
      PowPositive(2, n);
      assert 0 % Pow(2, w) == 0;
      assert !ColumnRight(k, w, n, Pow(2, b), 0);
    }
  }

  lemma {:induction false} RowPatternIff(k: nat, w: nat, n: nat)
    requires w <= n
    ensures SelectsRows(k, w, n) <==> IsRun(k, 0, w, n)
  {
    if IsRun(k, 0, w, n) {
      forall i, j | 0 <= i < Pow(2, n) && 0 <= j < Pow(2, n) ensures RowRight(k, w, n, i, j) {
        HighBits(i, j, w, n);
        assert AgreeOutside(k, i, j, n) <==> AgreeFrom(i, j, w, n);
      }
    } else {
      var b :| 0 <= b < n && Bit(k, b) != (0 <= b < w);
      OneBitAgrees(k, b, n);
      PowerPlace(b, w);
      PowPositive(2, n);
      assert 0 / Pow(2, w) == 0;
      assert !RowRight(k, w, n, Pow(2, b), 0);
    }
  }

  lemma {:induction false} AllPatternIff(k: nat, n: nat)
    ensures SelectsAll(k, n) <==> IsRun(k, 0, n, n)
  {
    if !IsRun(k, 0, n, n) {
      var b :| 0 <= b < n && !Bit(k, b);
      OneBitAgrees(k, b, n);
      PowPositive(2, n);
    }
  }

  // ---------------------------------------------------------------- when they are right

  lemma {:induction false} RunIs(lo: nat, hi: nat)
    requires lo <= hi
    ensures Run(lo, hi) + Pow(2, lo) == Pow(2, hi)
  {
    PowAdd(2, hi - lo, lo);
    PowPositive(2, hi - lo);
    assert (Pow(2, hi - lo) - 1) * Pow(2, lo) + Pow(2, lo) == Pow(2, hi - lo) * Pow(2, lo);
  }

  lemma {:induction false} RowTable(w: nat, n: nat, p: nat)
    requires w <= n <= MAX_LOG && p == Pow(2, w)
    ensures SideMask(n) + 1 == p <==> 2 * w == n || (w == 0 && n == 1) || (w == 1 && n == 3)
    ensures SideMask(n) < Pow(2, n)
  {
    PowerTable(w);
    PowerTable(n);
  }

  lemma {:induction false} RowNumberIff(w: nat, n: nat)
    requires w <= n <= MAX_LOG
    ensures SideMask(n) < Pow(2, n) && Run(0, w) < Pow(2, n)
    ensures SideMask(n) == Run(0, w) <==> 2 * w == n || (w == 0 && n == 1) || (w == 1 && n == 3)
  {
    RowTable(w, n, Pow(2, w));
    RunIs(0, w);
    if w < n {
      PowGrows(w, n);
    }
  }

  lemma {:induction false} RowIsRunIff(w: nat, n: nat, k: nat)
    requires w <= n <= MAX_LOG && k == SideMask(n)
    ensures IsRun(k, 0, w, n) <==> 2 * w == n || (w == 0 && n == 1) || (w == 1 && n == 3)
  {
    RowNumberIff(w, n);
    IsRunIff(k, 0, w, n);
  }

  lemma {:induction false} ColumnTable(w: nat, n: nat, p: nat, q: nat)
    requires w <= n <= MAX_LOG && p == Pow(2, w) && q == Pow(2, n / 2)
    ensures SideMask(n) * q < Pow(2, n)
    ensures SideMask(n) * q + p == Pow(2, n) <==> 2 * w == n || (w == 1 && n == 1) || (w == 4 && n == 5)
  {
    PowerTable(n);
    PowerTable(w);
    PowerTable(n / 2);
  }

  lemma {:induction false} ColumnNumberIff(w: nat, n: nat)
    requires w <= n <= MAX_LOG
    ensures ShiftLeft(SideMask(n), n / 2) < Pow(2, n) && Run(w, n) < Pow(2, n)
    ensures ShiftLeft(SideMask(n), n / 2) == Run(w, n) <==> 2 * w == n || (w == 1 && n == 1) || (w == 4 && n == 5)
  {
    ColumnTable(w, n, Pow(2, w), Pow(2, n / 2));
    RunIs(w, n);
    PowPositive(2, w);
  }

  lemma {:induction false} ColumnIsRunIff(w: nat, n: nat, k: nat)
    requires w <= n <= MAX_LOG && k == ShiftLeft(SideMask(n), n / 2)
    ensures IsRun(k, w, n, n) <==> 2 * w == n || (w == 1 && n == 1) || (w == 4 && n == 5)
  {
    ColumnNumberIff(w, n);
    IsRunIff(k, w, n, n);
  }

  lemma {:induction false} OrShift(x: nat, y: nat, s: nat)
    ensures Or(ShiftLeft(x, s), ShiftLeft(y, s)) == ShiftLeft(Or(x, y), s)
  {
    if s > 0 {
      OrShift(x, y, s - 1);
      OrDoubles(ShiftLeft(x, s - 1), ShiftLeft(y, s - 1));
      DoubleShift(x, s);
      DoubleShift(y, s);
      DoubleShift(Or(x, y), s);
    }
  }

  lemma {:induction false} DoubleShift(x: nat, s: nat)
    requires s > 0
    ensures ShiftLeft(x, s) == 2 * ShiftLeft(x, s - 1)
  {
  }

  lemma {:induction false} OrDoubles(x: nat, y: nat)
    ensures Or(2 * x, 2 * y) == 2 * Or(x, y)
  {
  }

  lemma {:induction false} ShiftTwice(x: nat, s: nat, u: nat)
    ensures ShiftLeft(x, u + s) == ShiftLeft(ShiftLeft(x, s), u)
  {
    PowAdd(2, s, u);
    Arith.MulAssociates(x, Pow(2, s), Pow(2, u));
  }

  /** The bits of the tile number that a mask covers. */
  function TileMask(n: nat, geometry: Geometry): nat
    requires n <= MAX_LOG
  {
    TileMaskOf(SideMask(n), n / 2, geometry)
  }

  function TileMaskOf(mask: nat, shift: nat, geometry: Geometry): nat {
    match geometry
    case All => Or(mask, ShiftLeft(mask, shift))
    case Column => ShiftLeft(mask, shift)
    case Row => mask
  }

  lemma {:induction false} MaskIsTileMask(mask: nat, shift: nat, geometry: Geometry)
    ensures MaskOf(mask, shift, geometry) == ShiftLeft(TileMaskOf(mask, shift, geometry), TILE_BIT)
  {
    ColumnTwice(mask, shift);
    OrShift(mask, ShiftLeft(mask, shift), TILE_BIT);
  }

  lemma {:induction false} ColumnTwice(m: nat, s: nat)
    ensures ShiftLeft(m, TILE_BIT + s) == ShiftLeft(ShiftLeft(m, s), TILE_BIT)
  {
    ShiftTwice(m, s, TILE_BIT);
  }

  /** Tile `i` of 2^n gets a collective sent to tile `to`. */
  predicate Gets(n: nat, geometry: Geometry, to: nat, i: nat)
    requires n <= MAX_LOG
  {
    Reaches(Mask(n, geometry), Base(to), i)
  }

  lemma {:induction false} GetsIff(n: nat, geometry: Geometry, to: nat, i: nat)
    requires n <= MAX_LOG && i < Pow(2, n) && to < Pow(2, n)
    ensures Gets(n, geometry, to, i) <==> AgreeOutside(TileMask(n, geometry), i, to, n)
  {
    MaskIsTileMask(SideMask(n), n / 2, geometry);
    ReachesIff(TileMask(n, geometry), i, to, n);
  }

  /** Tile `i` gets a column collective sent to tile `to` exactly if it is in its column. */
  predicate InColumn(w: nat, n: nat, to: nat, i: nat)
    requires n <= MAX_LOG
  {
    PowPositive(2, w);
    Gets(n, Column, to, i) <==> i % Pow(2, w) == to % Pow(2, w)
  }

  predicate InRow(w: nat, n: nat, to: nat, i: nat)
    requires n <= MAX_LOG
  {
    PowPositive(2, w);
    Gets(n, Row, to, i) <==> i / Pow(2, w) == to / Pow(2, w)
  }

  /** The column mask reaches exactly the columns of a mesh of 2^w by 2^h tiles. */
  predicate ColumnsRight(w: nat, h: nat)
    requires w + h <= MAX_LOG
  {
    AllInColumn(w, w + h)
  }

  predicate AllInColumn(w: nat, n: nat)
    requires n <= MAX_LOG
  {
    forall i, to :: 0 <= i < Pow(2, n) && 0 <= to < Pow(2, n) ==> InColumn(w, n, to, i)
  }

  predicate RowsRight(w: nat, h: nat)
    requires w + h <= MAX_LOG
  {
    AllInRow(w, w + h)
  }

  predicate AllInRow(w: nat, n: nat)
    requires n <= MAX_LOG
  {
    forall i, to :: 0 <= i < Pow(2, n) && 0 <= to < Pow(2, n) ==> InRow(w, n, to, i)
  }

  predicate AllRight(n: nat)
    requires n <= MAX_LOG
  {
    forall i, to :: 0 <= i < Pow(2, n) && 0 <= to < Pow(2, n) ==> Gets(n, All, to, i)
  }

  lemma {:induction false} InColumnIff(w: nat, n: nat, to: nat, i: nat, k: nat)
    requires n <= MAX_LOG && i < Pow(2, n) && to < Pow(2, n) && k == TileMask(n, Column)
    ensures InColumn(w, n, to, i) <==> ColumnRight(k, w, n, i, to)
  {
    GetsIff(n, Column, to, i);
  }

  lemma {:induction false} ColumnsAsPattern(w: nat, h: nat, n: nat, k: nat)
    requires n == w + h <= MAX_LOG && k == TileMask(n, Column)
    ensures ColumnsRight(w, h) <==> SelectsColumns(k, w, n)
  {
    forall i, to | 0 <= i < Pow(2, n) && 0 <= to < Pow(2, n)
      ensures InColumn(w, n, to, i) <==> ColumnRight(k, w, n, i, to) {
      InColumnIff(w, n, to, i, k);
    }
  }

  /** The column mask reaches exactly the columns if and only if the mesh is square, or 2
      wide and 1 high, or 16 wide and 2 high. */
  lemma {:induction false} ColumnsRightIff(w: nat, h: nat)
    requires w + h <= MAX_LOG
    ensures ColumnsRight(w, h) <==> w == h || (w == 1 && h == 0) || (w == 4 && h == 1)
  {
    var n := w + h;
    var k := TileMask(n, Column);
    ColumnsAsPattern(w, h, n, k);
    ColumnIsRunIff(w, n, k);
    ColumnPatternIff(k, w, n);
  }

  lemma {:induction false} InRowIff(w: nat, n: nat, to: nat, i: nat, k: nat)
    requires n <= MAX_LOG && i < Pow(2, n) && to < Pow(2, n) && k == TileMask(n, Row)
    ensures InRow(w, n, to, i) <==> RowRight(k, w, n, i, to)
  {
    GetsIff(n, Row, to, i);
  }

  lemma {:induction false} RowsAsPattern(w: nat, h: nat, n: nat, k: nat)
    requires n == w + h <= MAX_LOG && k == TileMask(n, Row)
    ensures RowsRight(w, h) <==> SelectsRows(k, w, n)
  {
    forall i, to | 0 <= i < Pow(2, n) && 0 <= to < Pow(2, n)
      ensures InRow(w, n, to, i) <==> RowRight(k, w, n, i, to) {
      InRowIff(w, n, to, i, k);
    }
  }

  /** The row mask reaches exactly the rows if and only if the mesh is square, or 1 wide and
      2 high, or 2 wide and 4 high. */
  lemma {:induction false} RowsRightIff(w: nat, h: nat)
    requires w + h <= MAX_LOG
    ensures RowsRight(w, h) <==> w == h || (w == 0 && h == 1) || (w == 1 && h == 2)
  {
    var n := w + h;
    var k := SideMask(n);
    RowsAsPattern(w, h, n, k);
    RowIsRunIff(w, n, k);
    RowPatternIff(k, w, n);
  }

  /** A bit that the full mask misses over an odd power of two tiles. */
  function Missed(n: nat): nat {
    if n == 3 then 2 else if n == 9 then 1 else 0
  }

  lemma {:induction false} MissTable(n: nat, m: nat, c: nat)
    requires n <= MAX_LOG && n % 2 == 1 && m == SideMask(n) && c == Missed(n)
    ensures c < n && !Bit(m, c) && (c >= n / 2 ==> !Bit(m, c - n / 2))
  {
    if n == 3 {
      assert !Bit(1, 1) && !Bit(1, 2);
    } else if n == 9 {
      assert !Bit(21, 1);
    }
  }

  lemma {:induction false} MissesBit(n: nat)
    requires n <= MAX_LOG && n % 2 == 1
    ensures Missed(n) < n && !Bit(TileMask(n, All), Missed(n))
  {
    var m, c := SideMask(n), Missed(n);
    MissTable(n, m, c);
    OrShiftBit(m, n / 2, c);
  }

  lemma {:induction false} OrShiftBit(m: nat, s: nat, b: nat)
    ensures Bit(Or(m, ShiftLeft(m, s)), b) <==> Bit(m, b) || (b >= s && Bit(m, b - s))
  {
    BitOr(m, ShiftLeft(m, s), b);
    BitShift(m, s, b);
  }

  lemma {:induction false} CoversTwice(k: nat, m: nat)
    requires m == Run(0, k)
    ensures IsRun(Or(m, ShiftLeft(m, k)), 0, 2 * k, 2 * k)
  {
    forall b | 0 <= b < 2 * k ensures Bit(Or(m, ShiftLeft(m, k)), b) {
      OrShiftBit(m, k, b);
      RunBits(0, k, b);
      if b >= k {
        RunBits(0, k, b - k);
      }
    }
  }

  lemma {:induction false} CoversAll(n: nat, k: nat)
    requires n <= MAX_LOG && n == 2 * k
    ensures IsRun(TileMask(n, All), 0, n, n)
  {
    var m := SideMask(n);
    RowNumberIff(k, n);
    CoversTwice(k, m);
    assert n / 2 == k;
    SameRun(n, Or(m, ShiftLeft(m, k)), TileMask(n, All));
  }

  lemma {:induction false} SameRun(n: nat, x: nat, y: nat)
    requires IsRun(x, 0, n, n) && x == y
    ensures IsRun(y, 0, n, n)
  {
  }

  /** The full mask reaches every tile if and only if the number of tiles is a square. */
  lemma {:induction false} AllRightIff(n: nat)
    requires n <= MAX_LOG
    ensures AllRight(n) <==> n % 2 == 0
  {
    var k := TileMask(n, All);
    forall i, to | 0 <= i < Pow(2, n) && 0 <= to < Pow(2, n) ensures Gets(n, All, to, i) <==> AgreeOutside(k, i, to, n) {
      GetsIff(n, All, to, i);
    }
    AllPatternIff(k, n);
    if n % 2 == 0 {
      CoversAll(n, n / 2);
    } else {
      MissesBit(n);
    }
    assert AllRight(n) <==> SelectsAll(k, n);
  }

  /** On a mesh 2 wide and 4 high a column collective sent to tile 0 reaches tiles 0 and 2 of
      the four in its column. */
  lemma {:induction false} NarrowMesh(i: nat)
    requires i < 8
    ensures Gets(3, Column, 0, i) <==> i == 0 || i == 2
  {
    assert Pow(2, 3) == 8 && Pow(2, 1) == 2 && TileMask(3, Column) == 2;
    GetsIff(3, Column, 0, i);
    assert Bit(i, 2) == Bit(i / 2, 1) == Bit(i / 2 / 2, 0);
    forall b | 0 <= b < 3 ensures !Bit(0, b) && (Bit(2, b) <==> b == 1) {
      NoBit(b);
      OneBit(1, b);
    }
    if AgreeOutside(2, i, 0, 3) {
      assert Bit(i, 0) == Bit(0, 0) && Bit(i, 2) == Bit(0, 2);
    } else {
      var b :| 0 <= b < 3 && !Bit(2, b) && Bit(i, b) != Bit(0, b);
      assert b == 0 || b == 2;
    }
  }

  // ---------------------------------------------------------------- the address of a collective

  /** The address a collective store is issued to, in 32 bits. */
  function StoreAddress(tile: nat, offset: nat): nat {
    (COLLECTIVE + L1_BASE + Base(tile) + offset) % Arith.TWO32
  }

  /** The collective generator recognises a collective by its top four bits, and removes
      them. */
  predicate IsCollective(address: nat) {
    address / TOP_NIBBLE == 0xB
  }

  function Stripped(address: nat): nat {
    address % TOP_NIBBLE
  }

  /** A collective store reaches the generator as a collective to the tile meant for the
      first 256 tiles and for no other: collectives cover meshes of up to 16 by 16. */
  lemma {:induction false} CollectiveStoreIff(tile: nat, offset: nat)
    requires tile < Pow(2, MAX_LOG) && L1_BASE + offset < Base(1)
    ensures var address := StoreAddress(tile, offset);
            (IsCollective(address) && Stripped(address) == L1_BASE + Base(tile) + offset) <==> tile < 256
  {
    PowerTable(MAX_LOG);
    assert Pow(2, TILE_BIT) == 0x10_0000 by {
      PowAdd(2, 10, 10);
      PowerTable(10);
    }
  }
}
