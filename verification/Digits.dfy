/** What the two number printers should print: the canonical digit string. */
module Digits {
  import opened Arith

  newtype uint32 = x: int | 0 <= x < 0x1_0000_0000

  const NUL: char := 0 as char

  function DigitChar(d: nat, upper: bool): char
    requires d < 16
  {
    (d + if d < 10 then '0' as int else (if upper then 'A' else 'a') as int - 10) as char
  }

  /** The digits of `v` in the given base, most significant first. */
  function Canonical(v: nat, base: nat, upper: bool): (s: string)
    requires 2 <= base <= 16
    ensures |s| >= 1
    decreases v
  {
    if v < base then [DigitChar(v, upper)]
    else
      DivDecreases(v, base);
      Canonical(v / base, base, upper) + [DigitChar(v % base, upper)]
  }

  /** The value of a digit character, -1 for any other character. */
  function A2d(ch: char): (d: int)
    ensures -1 <= d < 16
  {
    if '0' <= ch <= '9' then ch as int - '0' as int
    else if 'a' <= ch <= 'f' then ch as int - 'a' as int + 10
    else if 'A' <= ch <= 'F' then ch as int - 'A' as int + 10
    else -1
  }

  /** The number a digit string stands for. */
  function Value(s: string, base: nat): int {
    if s == [] then 0 else Value(s[..|s| - 1], base) * base + A2d(s[|s| - 1])
  }

  lemma DigitCharIs(d: nat, upper: bool)
    requires d < 16
    ensures DigitChar(d, upper) == (if upper then "0123456789ABCDEF" else "0123456789abcdef")[d]
  {
  }

  /** Both cases of the letters are read, and nothing else is a digit. */
  lemma A2dIs(ch: char)
    ensures forall d :: 0 <= d < 16 ==> (A2d(ch) == d <==> ch == "0123456789abcdef"[d] || ch == "0123456789ABCDEF"[d])
    ensures A2d(ch) == -1 <==> ch !in "0123456789abcdefABCDEF"
  {
  }

  lemma DigitCharRoundTrip(d: nat, upper: bool)
    requires d < 16
    ensures A2d(DigitChar(d, upper)) == d && (d > 0 ==> DigitChar(d, upper) != '0')
  {
  }

  lemma {:induction false} ValueAppend(s: string, ch: char, base: nat)
    ensures Value(s + [ch], base) == Value(s, base) * base + A2d(ch)
  {
  }

  /** A digit weighs the base to the number of digits after it. */
  lemma {:induction false} ValueConcat(s: string, t: string, base: nat)
    ensures Value(s + t, base) == Value(s, base) * Pow(base, |t|) + Value(t, base)
  {
    if t == "" {
      assert s + t == s;
    } else {
      var n := |t| - 1;
      ValueConcat(s, t[..n], base);
      assert (s + t)[..|s + t| - 1] == s + t[..n];
      HornerStep(Value(s, base), Pow(base, n), Value(t[..n], base), base, A2d(t[n]));
    }
  }

  lemma HornerStep(x: int, w: int, y: int, base: int, d: int)
    ensures (x * w + y) * base + d == x * (base * w) + (y * base + d)
  {
    assert x * w * base == x * (base * w);
  }

  lemma {:induction false} CanonicalStep(v: nat, base: nat, upper: bool, q: nat, d: nat)
    requires 2 <= base <= 16 && base <= v && q == v / base && d == v % base
    ensures q < v && v == q * base + d && d < 16
    ensures Canonical(v, base, upper) == Canonical(q, base, upper) + [DigitChar(d, upper)]
  {
  }

  /** The digit string stands for the number it was made from. */
  lemma {:induction false} CanonicalValue(v: nat, base: nat, upper: bool)
    requires 2 <= base <= 16
    ensures Value(Canonical(v, base, upper), base) == v
    decreases v
  {
    if v < base {
      DigitCharRoundTrip(v, upper);
      ValueAppend([], DigitChar(v, upper), base);
    } else {
      var q, d := v / base, v % base;
      CanonicalStep(v, base, upper, q, d);
      CanonicalValue(q, base, upper);
      DigitCharRoundTrip(d, upper);
      ValueAppend(Canonical(q, base, upper), DigitChar(d, upper), base);
    }
  }

  /** It is canonical: its characters are digits of the base, and it has no leading
      zero unless it is "0" itself. */
  lemma {:induction false} CanonicalDigits(v: nat, base: nat, upper: bool)
    requires 2 <= base <= 16
    ensures var s := Canonical(v, base, upper);
      && (forall i :: 0 <= i < |s| ==> 0 <= A2d(s[i]) < base)
      && (v == 0 ==> s == "0")
      && (v > 0 ==> s[0] != '0')
    decreases v
  {
    if v < base {
      DigitCharRoundTrip(v, upper);
    } else {
      DivDecreases(v, base);
      DivBound(v, base, 1);
      CanonicalDigits(v / base, base, upper);
      DigitCharRoundTrip(v % base, upper);
    }
  }

  /** Its letters are all capital or all small. */
  lemma {:induction false} CanonicalCase(v: nat, base: nat, upper: bool)
    requires 2 <= base <= 16
    ensures forall i :: 0 <= i < |Canonical(v, base, upper)| ==>
              Canonical(v, base, upper)[i] in if upper then "0123456789ABCDEF" else "0123456789abcdef"
    decreases v
  {
    if v < base {
      DigitCharIs(v, upper);
    } else {
      DivDecreases(v, base);
      CanonicalCase(v / base, base, upper);
      DigitCharIs(v % base, upper);
    }
  }

  /** The digits of a number, none for 0. */
  function Rest(v: nat, base: nat, upper: bool): string
    requires 2 <= base <= 16
  {
    if v == 0 then "" else Canonical(v, base, upper)
  }

  lemma LastDigit(v: nat, base: nat, upper: bool)
    requires 2 <= base <= 16
    ensures Canonical(v, base, upper) == Rest(v / base, base, upper) + [DigitChar(v % base, upper)]
  {
    DivBound(v, base, 1);
    if v < base {
      DivModUnique(v, base, 0, v);
    }
  }

  /** A smaller number has no more digits. */
  lemma {:induction false} DigitsMonotone(w: nat, v: nat, base: nat, upper: bool)
    requires 2 <= base <= 16 && w <= v
    ensures |Rest(w, base, upper)| <= |Canonical(w, base, upper)| <= |Canonical(v, base, upper)|
    decreases w
  {
    if w >= base {
      DivDecreases(w, base);
      DivBound(v, base, w / base);
      assert w / base * base <= w;
      DigitsMonotone(w / base, v / base, base, upper);
    }
  }

  function Pow(base: nat, n: nat): nat {
    if n == 0 then 1 else base * Pow(base, n - 1)
  }

  /** A number has at most n > 0 digits exactly when it is below base^n. */
  lemma {:induction false} DigitCount(v: nat, base: nat, upper: bool, n: nat)
    requires 2 <= base <= 16 && n > 0
    ensures |Canonical(v, base, upper)| <= n <==> v < Pow(base, n)
    decreases n
  {
    PowPositive(base, n - 1);
    MulMonotone(1, Pow(base, n - 1), base);
    if v >= base {
      DivDecreases(v, base);
      DivBound(v, base, Pow(base, n - 1));
      if n > 1 {
        DigitCount(v / base, base, upper, n - 1);
      }
    }
  }

  lemma {:induction false} PowPositive(base: nat, n: nat)
    requires base >= 1
    ensures Pow(base, n) >= 1
  {
    if n > 0 {
      PowPositive(base, n - 1);
      MulMonotone(1, base, Pow(base, n - 1));
    }
  }

  lemma {:induction false} PowAdd(u: nat, m: nat, n: nat)
    ensures Pow(u, m + n) == Pow(u, m) * Pow(u, n)
  {
    if m > 0 {
      PowAdd(u, m - 1, n);
      MulAssociates(u, Pow(u, m - 1), Pow(u, n));
    }
  }

  /** Every 32-bit number in base 8, 10 or 16 fits a buffer of 12 characters with its
      terminator, and base 8 needs all 12. */
  lemma FitsTwelve(v: uint32, base: nat, upper: bool)
    requires base in {8, 10, 16}
    ensures |Canonical(v as nat, base, upper)| + 1 <= 12
    ensures |Canonical(0xFFFF_FFFF, 8, upper)| + 1 == 12
  {
    PowSteps(base);
    PowSteps(8);
    DigitCount(v as nat, base, upper, 11);
    DigitCount(0xFFFF_FFFF, 8, upper, 10);
    DigitCount(0xFFFF_FFFF, 8, upper, 11);
  }

  lemma PowSteps(base: nat)
    requires base in {8, 10, 16}
    ensures Pow(base, 11) > 0xFFFF_FFFF
    ensures base == 8 ==> Pow(base, 10) <= 0xFFFF_FFFF
  {
  }

  function Reverse(s: string): (r: string)
    ensures |r| == |s| && forall i :: 0 <= i < |s| ==> r[i] == s[|s| - 1 - i]
  {
    seq(|s|, i requires 0 <= i < |s| => s[|s| - 1 - i])
  }

  /** The text followed by its terminator is at the start of the buffer, and the rest
      of the buffer is as before. */
  ghost predicate Holds(before: seq<char>, after: seq<char>, text: string) {
    && |before| == |after| && |text| < |after|
    && after[..|text| + 1] == text + [NUL]
    && after[|text| + 1..] == before[|text| + 1..]
  }
}
