/** The number routines of tinyprintf: digit generation from the highest power
    down, and the width parser that reads digits back. */
module PrintfNumbers {
  import opened Arith
  import opened Digits

  /** The highest power of the base that still divides into `num`; the product
      `d * base` never leaves 32 bits. */
  method HighestPower(num: uint32, base: uint32) returns (d: uint32, ghost k: nat)
    requires base >= 2
    ensures d == 1 || d <= num
    ensures d >= 1 && num as nat < d as nat * base as nat && d as nat == Pow(base as nat, k)
  {
    d, k := 1, 0;
    while num / d >= base
      invariant d >= 1 && d as nat == Pow(base as nat, k)
      invariant d == 1 || d <= num
      decreases num as int - d as int
    {
      DivBound(num as nat, d as nat, base as nat);
      MulMonotone(2, base as int, d as nat);
      d := d * base;
      k := k + 1;
    }
    DivBound(num as nat, d as nat, base as nat);
  }

  /** In the digit loop at power `d`: `v` splits into the part `hi` above the current
      digit, the current digit `c` and the rest `r`; `num` is what is left of it. */
  ghost predicate Level(v: int, d: int, base: int, num: int, hi: int, c: int, r: int) {
    v == (hi * base + c) * d + r && num == c * d + r && 0 <= hi && 0 <= c < base && 0 <= r < d
  }

  lemma TopLevel(v: nat, d: nat, base: nat) returns (c: nat, r: nat)
    requires base >= 2 && d > 0 && v < d * base
    ensures Level(v, d, base, v, 0, c, r)
  {
    c, r := v / d, v % d;
    DivBound(v, d, base);
  }

  /** Going down one power. */
  lemma LowerLevel(v: nat, d: nat, base: nat, num: nat, hi: nat, c: nat, r: nat, d': nat) returns (c': nat, r': nat)
    requires Level(v, d, base, num, hi, c, r) && d == d' * base && d' > 0
    ensures Level(v, d', base, r, hi * base + c, c', r')
  {
    c', r' := r / d', r % d';
    DivBound(r, d', base);
    var q := hi * base + c;
    assert q * d == q * base * d';
    assert (q * base + c') * d' == q * base * d' + c' * d';
  }

  /** Powers of the base divide down exactly, ending in 0. */
  lemma PowerDown(d: nat, base: nat, k: nat)
    requires base >= 2 && d == Pow(base, k)
    ensures 0 <= d / base < d
    ensures k == 0 ==> d == 1 && d / base == 0
    ensures k > 0 ==> d / base == Pow(base, k - 1) && d / base > 0 && d == d / base * base
  {
    PowPositive(base, k);
    if k > 0 {
      PowPositive(base, k - 1);
      DivModUnique(d, base, Pow(base, k - 1), 0);
      MulMonotone(2, base, Pow(base, k - 1));
    } else {
      DivModUnique(1, base, 0, 1);
    }
  }

  function NextOut(out: string, dgt: nat, last: bool, uc: bool): string
    requires dgt < 16
  {
    if |out| > 0 || dgt > 0 || last then out + [DigitChar(dgt, uc)] else out
  }

  /** One turn of the digit loop: leading zeros are dropped, no digit is lost. */
  lemma DigitStep(hi: nat, c: nat, base: nat, uc: bool, last: bool, v: nat)
    requires 2 <= base <= 16 && c < base && v == hi * base + c
    ensures NextOut(Rest(hi, base, uc), c, last, uc) == if last then Canonical(v, base, uc) else Rest(v, base, uc)
  {
    DivModUnique(v, base, hi, c);
    LastDigit(v, base, uc);
    if hi > 0 {
      MulMonotone(1, hi, base);
    }
  }

  lemma PartSmaller(v: nat, q: nat, d: nat, r: nat)
    requires v == q * d + r && d > 0
    ensures q <= v && (d == 1 && r == 0 ==> q == v)
  {
    MulMonotone(1, d, q);
  }

  /** The invariant of the digit loop: `out` is what has been written. */
  ghost predicate Turn(v: nat, base: nat, uc: bool, num: nat, d: nat, k: nat, hi: nat, c: nat, r: nat, out: string) {
    && 2 <= base <= 16 && |out| <= |Canonical(v, base, uc)|
    && if d == 0 then out == Canonical(v, base, uc)
       else d == Pow(base, k) && Level(v, d, base, num, hi, c, r) && out == Rest(hi, base, uc)
  }

  /** What has been written after the digit `c`, the number `q` being written so far. */
  lemma NextText(v: nat, base: nat, uc: bool, d: nat, hi: nat, c: nat, r: nat, q: nat, last: bool)
    requires 2 <= base <= 16 && c < base && q == hi * base + c && v == q * d + r && d > 0
    ensures NextOut(Rest(hi, base, uc), c, last, uc) == if last then Canonical(q, base, uc) else Rest(q, base, uc)
    ensures |NextOut(Rest(hi, base, uc), c, last, uc)| <= |Canonical(v, base, uc)|
  {
    DigitStep(hi, c, base, uc, last, q);
    PartSmaller(v, q, d, r);
    DigitsMonotone(q, v, base, uc);
  }

  lemma OneDigitOn(hi: nat, base: nat, c: nat) returns (q: nat)
    ensures q == hi * base + c
  {
    MulMonotone(0, hi, base);
    q := hi * base + c;
  }

  lemma LastTurn(v: nat, base: nat, uc: bool, num: nat, d: nat, hi: nat, c: nat, r: nat, out: string)
    requires Turn(v, base, uc, num, d, 0, hi, c, r, out) && d > 0
    ensures c < 16 && Turn(v, base, uc, r, 0, 0, 0, 0, 0, NextOut(out, c, true, uc))
  {
    var q := OneDigitOn(hi, base, c);
    PartSmaller(v, q, d, r);
    NextText(v, base, uc, d, hi, c, r, q, true);
  }

  lemma MiddleTurn(v: nat, base: nat, uc: bool, num: nat, d: nat, k: nat, hi: nat, c: nat, r: nat, out: string, d': nat)
    returns (hi': nat, c': nat, r': nat)
    requires Turn(v, base, uc, num, d, k, hi, c, r, out) && k > 0 && d > 0
    requires d == d' * base && d' > 0 && d' == Pow(base, k - 1)
    ensures c < 16 && Turn(v, base, uc, r, d', k - 1, hi', c', r', NextOut(out, c, false, uc))
  {
    hi' := OneDigitOn(hi, base, c);
    NextText(v, base, uc, d, hi, c, r, hi', false);
    c', r' := LowerLevel(v, d, base, num, hi, c, r, d');
  }

  lemma NextTurn(v: nat, base: nat, uc: bool, num: nat, d: nat, k: nat, hi: nat, c: nat, r: nat, out: string, d': nat)
    returns (k': nat, hi': nat, c': nat, r': nat)
    requires Turn(v, base, uc, num, d, k, hi, c, r, out) && d > 0 && d' == d / base
    ensures c < 16 && d' < d
    ensures Turn(v, base, uc, r, d', k', hi', c', r', NextOut(out, c, d' == 0, uc))
  {
    PowerDown(d, base, k);
    if k > 0 {
      k' := k - 1;
      hi', c', r' := MiddleTurn(v, base, uc, num, d, k, hi, c, r, out, d');
    } else {
      k', hi', c', r' := 0, 0, 0, 0;
      LastTurn(v, base, uc, num, d, hi, c, r, out);
    }
  }

  lemma TurnDivides(v: nat, base: nat, uc: bool, num: nat, d: nat, k: nat, hi: nat, c: nat, r: nat, out: string)
    requires Turn(v, base, uc, num, d, k, hi, c, r, out) && d > 0
    ensures num / d == c && num % d == r && 0 <= d / base < d
  {
    DivModUnique(num, d, c, r);
    PowerDown(d, base, k);
  }

  /** The body of the digit loop. */
  method DigitTurn(ghost v: nat, num: uint32, d: uint32, base: uint32, uc: bool, bf: array<char>, n: nat,
                   ghost k: nat, ghost hi: nat, ghost c: nat, ghost r: nat, ghost out: string)
    returns (num': uint32, d': uint32, n': nat, ghost k': nat, ghost hi': nat, ghost c': nat, ghost r': nat, ghost out': string)
    requires Turn(v, base as nat, uc, num as nat, d as nat, k, hi, c, r, out) && d != 0
    requires |out| == n && |Canonical(v, base as nat, uc)| < bf.Length && bf[..n] == out
    modifies bf
    ensures d' < d && Turn(v, base as nat, uc, num' as nat, d' as nat, k', hi', c', r', out')
    ensures |out'| == n' && n <= n' <= bf.Length && bf[..n'] == out' && bf[n'..] == old(bf[n'..])
  {
    TurnDivides(v, base as nat, uc, num as nat, d as nat, k, hi, c, r, out);
    var dgt := num / d;
    num' := num % d;
    d' := d / base;
    k', hi', c', r' := NextTurn(v, base as nat, uc, num as nat, d as nat, k, hi, c, r, out, d' as nat);
    out' := NextOut(out, c, d' == 0, uc);
    n' := PutDigit(bf, n, dgt, d' == 0, uc, out);
  }

  /** `ui2a`: writes the canonical digits and a terminator into the buffer. */
  method Ui2a(num0: uint32, base: uint32, uc: bool, bf: array<char>)
    requires 2 <= base <= 16 && |Canonical(num0 as nat, base as nat, uc)| < bf.Length
    modifies bf
    ensures Holds(old(bf[..]), bf[..], Canonical(num0 as nat, base as nat, uc))
  {
    var num := num0;
    var d, k := HighestPower(num, base);
    var n := 0;
    ghost var out, hi: nat := "", 0;
    ghost var c, r := TopLevel(num0 as nat, d as nat, base as nat);
    while d != 0
      invariant Turn(num0 as nat, base as nat, uc, num as nat, d as nat, k, hi, c, r, out)
      invariant |out| == n && n <= bf.Length && bf[..n] == out
      invariant bf[n..] == old(bf[n..])
      decreases d
    {
      num, d, n, k, hi, c, r, out := DigitTurn(num0 as nat, num, d, base, uc, bf, n, k, hi, c, r, out);
    }
    assert out == Canonical(num0 as nat, base as nat, uc);
    bf[n] := NUL;
    assert bf[..n + 1] == out + [NUL];
    assert bf[n + 1..] == old(bf[n..])[1..];
  }

  /** Writes a digit unless it would be a leading zero. */
  method PutDigit(bf: array<char>, n: nat, dgt: uint32, last: bool, uc: bool, ghost out: string) returns (n': nat)
    requires dgt < 16 && n < bf.Length && bf[..n] == out
    modifies bf
    ensures n' == |NextOut(out, dgt as nat, last, uc)| && n <= n' <= bf.Length
    ensures bf[..n'] == NextOut(out, dgt as nat, last, uc) && bf[n'..] == old(bf[n'..])
  {
    n' := n;
    if n > 0 || dgt > 0 || last {
      bf[n] := ((dgt as int) + if dgt < 10 then '0' as int else (if uc then 'A' else 'a') as int - 10) as char;
      n' := n + 1;
      assert bf[..n'] == out + [bf[n]];
    }
  }

  // ---- Reading digits back ----

  /** The end of the run of characters that `a2u` takes for digits.  The code
      compares with `>`, so the digit equal to the base is taken too. */
  function DigitsEnd(mem: seq<char>, i: nat, base: nat): (e: nat)
    requires i <= |mem|
    ensures i <= e <= |mem|
    ensures forall k :: i <= k < e ==> 0 <= A2d(mem[k]) <= base
    ensures e < |mem| ==> !(0 <= A2d(mem[e]) <= base)
    decreases |mem| - i
  {
    if i < |mem| && 0 <= A2d(mem[i]) <= base then DigitsEnd(mem, i + 1, base) else i
  }

  lemma AppendValue(mem: seq<char>, i: nat, e: nat, base: nat)
    requires i <= e < |mem|
    ensures Value(mem[i..e + 1], base) == Value(mem[i..e], base) * base + A2d(mem[e])
  {
    var s := mem[i..e + 1];
    assert s[..|s| - 1] == mem[i..e];
  }

  lemma {:induction false} ValueNonNegative(s: string, base: nat)
    requires forall i :: 0 <= i < |s| ==> A2d(s[i]) >= 0
    ensures Value(s, base) >= 0
  {
    if s != [] {
      ValueNonNegative(s[..|s| - 1], base);
      MulMonotone(0, Value(s[..|s| - 1], base), base);
    }
  }

  /** `num` is the number read so far, modulo 2^32. */
  ghost predicate IsWrapped(mem: seq<char>, i: nat, e: nat, base: nat, num: nat) {
    && i <= e <= |mem| && Value(mem[i..e], base) >= 0
    && num == Value(mem[i..e], base) % TWO32
  }

  lemma AppendWrapped(mem: seq<char>, i: nat, e: nat, base: nat, num: nat, digit: nat)
    requires e < |mem| && IsWrapped(mem, i, e, base, num) && A2d(mem[e]) == digit
    ensures 0 <= (num * base + digit) % TWO32 < TWO32
    ensures IsWrapped(mem, i, e + 1, base, (num * base + digit) % TWO32)
  {
    AppendValue(mem, i, e, base);
    ModStep(Value(mem[i..e], base), TWO32, base, digit);
    MulMonotone(0, Value(mem[i..e], base), base);
  }

  /** The same, with `wrapped` telling whether some step has left 32 bits. */
  ghost predicate IsRead(mem: seq<char>, i: nat, e: nat, base: nat, num: nat, wrapped: bool) {
    && IsWrapped(mem, i, e, base, num)
    && (base >= 1 ==> (wrapped <==> Value(mem[i..e], base) >= TWO32))
  }

  /** A step leaves 32 bits, now or earlier, exactly when the number does. */
  lemma Exceeds(value: nat, base: nat, digit: nat, num: nat, next: nat)
    requires base >= 1 && num == value % TWO32 && next == value * base + digit
    ensures value >= TWO32 || num * base + digit >= TWO32 <==> next >= TWO32
  {
    if value < TWO32 {
      assert num == value;
    } else {
      MulMonotone(1, base, value);
    }
  }

  lemma ReadOneMore(mem: seq<char>, i: nat, e: nat, base: nat, num: nat, digit: nat, wrapped: bool)
    requires e < |mem| && IsRead(mem, i, e, base, num, wrapped) && A2d(mem[e]) == digit
    ensures 0 <= (num * base + digit) % TWO32 < TWO32
    ensures IsRead(mem, i, e + 1, base, (num * base + digit) % TWO32, wrapped || num * base + digit >= TWO32)
  {
    AppendWrapped(mem, i, e, base, num, digit);
    AppendValue(mem, i, e, base);
    if base >= 1 {
      Exceeds(Value(mem[i..e], base), base, digit, num, Value(mem[i..e + 1], base));
    }
  }

  /** One digit more. */
  method AddDigit(ghost mem: seq<char>, ghost i: nat, ghost e: nat, base: uint32, num: uint32, digit: nat, ghost wrapped: bool)
    returns (num': uint32, ghost wrapped': bool)
    requires e < |mem| && IsRead(mem, i, e, base as nat, num as nat, wrapped) && A2d(mem[e]) == digit
    ensures wrapped' <==> wrapped || num as nat * base as nat + digit >= TWO32
    ensures IsRead(mem, i, e + 1, base as nat, num' as nat, wrapped')
  {
    ReadOneMore(mem, i, e, base as nat, num as nat, digit, wrapped);
    wrapped' := wrapped || num as nat * base as nat + digit >= TWO32;
    num' := ((num as nat * base as nat + digit) % TWO32) as uint32;
  }

  /** The loop invariant of `a2u`: `ch`, at `src - 1`, is the next character to look at. */
  ghost predicate Reading(mem: seq<char>, src0: nat, base: nat, ch: char, src: nat, num: nat, wrapped: bool) {
    && 1 <= src0 <= src <= |mem| && ch == mem[src - 1]
    && DigitsEnd(mem, src0 - 1, base) == DigitsEnd(mem, src - 1, base)
    && IsRead(mem, src0 - 1, src - 1, base, num, wrapped)
  }

  lemma DigitTaken(mem: seq<char>, i: nat, base: nat)
    requires i < |mem| && 0 <= A2d(mem[i]) <= base
    ensures DigitsEnd(mem, i, base) == DigitsEnd(mem, i + 1, base)
  {
  }

  /** Takes the digit at hand and reads the next character. */
  method TakeDigit(ghost src0: nat, mem: seq<char>, base: uint32, ch: char, src: nat, num: uint32, digit: nat,
                   ghost wrapped: bool)
    returns (ch': char, src': nat, num': uint32, ghost wrapped': bool)
    requires Reading(mem, src0, base as nat, ch, src, num as nat, wrapped) && src < |mem|
    requires A2d(ch) == digit <= base as nat
    ensures src' == src + 1 && Reading(mem, src0, base as nat, ch', src', num' as nat, wrapped')
  {
    DigitTaken(mem, src - 1, base as nat);
    num', wrapped' := AddDigit(mem, src0 - 1, src - 1, base, num, digit, wrapped);
    ch' := mem[src];
    src' := src + 1;
  }

  lemma NothingRead(mem: seq<char>, i: nat, base: nat)
    requires i <= |mem|
    ensures IsRead(mem, i, i, base, 0, false)
  {
    assert mem[i..i] == [];
  }

  /** `a2u`: `ch0` is the character just read, at `src - 1`.  Stops at the first
      character that is no digit and returns it; the number wraps at 32 bits.
      `wrapped` tells whether some step of it left 32 bits. */
  method A2u(ch0: char, mem: seq<char>, src0: nat, base: uint32)
    returns (ch: char, src: nat, num: uint32, ghost wrapped: bool)
    requires 1 <= src0 <= |mem| && mem[src0 - 1] == ch0
    requires mem[|mem| - 1] == NUL
    ensures src == DigitsEnd(mem, src0 - 1, base as nat) + 1 <= |mem| && ch == mem[src - 1]
    ensures IsRead(mem, src0 - 1, src - 1, base as nat, num as nat, wrapped)
  {
    ch, src, num, wrapped := ch0, src0, 0, false;
    NothingRead(mem, src0 - 1, base as nat);
    while true
      invariant Reading(mem, src0, base as nat, ch, src, num as nat, wrapped)
      decreases |mem| - src
    {
      var digit := A2d(ch);
      if digit < 0 || digit > base as int {
        break;
      }
      ch, src, num, wrapped := TakeDigit(src0, mem, base, ch, src, num, digit, wrapped);
    }
  }

  lemma {:induction false} RunOfDigits(mem: seq<char>, i: nat, e: nat, base: nat)
    requires i <= e < |mem|
    requires forall k :: i <= k < e ==> 0 <= A2d(mem[k]) <= base
    requires !(0 <= A2d(mem[e]) <= base)
    ensures DigitsEnd(mem, i, base) == e
    decreases e - i
  {
  }

  /** The printed digits, terminated, are read back as the number. */
  lemma ReadBack(v: uint32, base: nat, uc: bool)
    requires 2 <= base <= 16
    ensures var s := Canonical(v as nat, base, uc);
      && (forall i :: 0 <= i < |s| ==> s[i] != NUL)
      && DigitsEnd(s + [NUL], 0, base) == |s|
      && Value((s + [NUL])[0..|s|], base) == v as nat
  {
    var s := Canonical(v as nat, base, uc);
    CanonicalDigits(v as nat, base, uc);
    CanonicalValue(v as nat, base, uc);
    RunOfDigits(s + [NUL], 0, |s|, base);
    assert (s + [NUL])[0..|s|] == s;
  }

  /** The index of the terminator. */
  method Strlen(bf: array<char>, ghost s: string) returns (n: nat)
    requires |s| < bf.Length && bf[..|s| + 1] == s + [NUL] && forall i :: 0 <= i < |s| ==> s[i] != NUL
    ensures n == |s|
  {
    ghost var after := bf[..|s| + 1];
    assert forall k :: 0 <= k <= |s| ==> bf[k] == after[k] == (s + [NUL])[k];
    n := 0;
    while bf[n] != NUL
      invariant n <= |s|
      decreases |s| - n
    {
      n := n + 1;
    }
  }

  /** Printing a 32-bit number and reading it back, in any base from 2 to 16: no step of
      the reading leaves 32 bits. */
  method PrintThenParse(v: uint32, base: uint32, uc: bool, bf: array<char>)
    returns (num: uint32, next: char, ghost wrapped: bool)
    requires 2 <= base <= 16 && |Canonical(v as nat, base as nat, uc)| < bf.Length
    modifies bf
    ensures num == v && next == NUL
    ensures !wrapped
  {
    Ui2a(v, base, uc, bf);
    ReadBack(v, base as nat, uc);
    var n := Strlen(bf, Canonical(v as nat, base as nat, uc));
    var src;
    next, src, num, wrapped := A2u(bf[0], bf[..n + 1], 1, base);
  }

  /** The end of the run of proper digits of the base. */
  function ProperDigitsEnd(mem: seq<char>, i: nat, base: nat): (e: nat)
    requires i <= |mem|
    ensures i <= e <= |mem|
    decreases |mem| - i
  {
    if i < |mem| && 0 <= A2d(mem[i]) < base then ProperDigitsEnd(mem, i + 1, base) else i
  }

  /** `a2u` stops where the digits of the base stop, if and only if the next
      character is not the digit equal to the base: in base 10, not 'a' or 'A'. */
  lemma {:induction false} StopsAtDigitsIff(mem: seq<char>, i: nat, base: nat)
    requires i <= |mem|
    ensures var e := ProperDigitsEnd(mem, i, base);
      DigitsEnd(mem, i, base) == e <==> (e < |mem| ==> A2d(mem[e]) != base)
    decreases |mem| - i
  {
    if i < |mem| && 0 <= A2d(mem[i]) < base {
      StopsAtDigitsIff(mem, i + 1, base);
    }
  }

  /** In "5ad" it takes the 'a' for a tenth digit and reads sixty. */
  lemma TakesTen()
    ensures ProperDigitsEnd("5ad", 0, 10) == 1 && Value("5ad"[..1], 10) == 5
    ensures DigitsEnd("5ad", 0, 10) == 2 && Value("5ad"[..2], 10) == 60
  {
    assert "5ad"[..1] == "5" && "5ad"[..2] == "5a";
    assert "5"[..0] == "" && "5a"[..1] == "5";
  }
}
