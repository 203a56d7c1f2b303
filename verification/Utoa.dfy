/** The mesh's own number printer: least significant digit first, then reversed in
    place by two pointers. */
module Utoa {
  import opened Arith
  import opened Digits

  const DIGITS: string := "0123456789ABCDEF"

  lemma DigitTable(d: nat)
    requires d < 16
    ensures DIGITS[d] == DigitChar(d, true)
  {
  }

  /** Dividing out the last digit moves it from the remaining value to the front of
      what has been produced. */
  lemma TakeDigit(text: string, v: nat, base: nat, done: string)
    requires 2 <= base <= 16 && text == Canonical(v, base, true) + done
    ensures text == Rest(v / base, base, true) + ([DigitChar(v % base, true)] + done)
  {
    LastDigit(v, base, true);
  }

  lemma Remainder(v: nat, base: nat)
    requires base >= 2
    ensures 0 <= v / base * base <= v && v - v / base * base == v % base
    ensures v > 0 ==> v / base < v
  {
    DivDecreases(v, base);
  }

  lemma ReversePrepend(c: char, s: string)
    ensures Reverse([c] + s) == Reverse(s) + [c]
  {
  }

  /** One division: the quotient, and what multiplying it back leaves over. */
  method DivideOff(tmp: uint32, base: uint32) returns (value: uint32, d: uint32)
    requires base >= 2
    ensures value as nat == tmp as nat / base as nat && d as nat == tmp as nat % base as nat
    ensures tmp > 0 ==> value < tmp
  {
    value := tmp / base;
    Remainder(tmp as nat, base as nat);
    d := tmp - value * base;
  }

  /** First phase: the digits, least significant first. */
  method DigitsBackwards(value0: uint32, base: uint32, result: array<char>) returns (n: nat)
    requires 2 <= base <= 16 && |Canonical(value0 as nat, base as nat, true)| < result.Length
    modifies result
    ensures n == |Canonical(value0 as nat, base as nat, true)|
    ensures result[..n] == Reverse(Canonical(value0 as nat, base as nat, true))
    ensures result[n..] == old(result[n..])
  {
    ghost var text := Canonical(value0 as nat, base as nat, true);
    var value := value0;
    n := 0;
    ghost var done := "";
    assert text + done == text;
    while true
      invariant text == Canonical(value as nat, base as nat, true) + done
      invariant |done| == n && result[..n] == Reverse(done)
      invariant result[n..] == old(result[n..])
      decreases value
    {
      var tmp, d := value, 0;
      value, d := DivideOff(tmp, base);
      TakeDigit(text, tmp as nat, base as nat, done);
      DigitTable(d as nat);
      result[n] := DIGITS[d];
      ReversePrepend(DigitChar(d as nat, true), done);
      done := [DigitChar(d as nat, true)] + done;
      assert result[..n + 1] == Reverse(done);
      assert result[n + 1..] == old(result[n..])[1..] == old(result[n + 1..]);
      n := n + 1;
      if value == 0 {
        break;
      }
    }
    assert text == done;
  }

  /** Second phase: two pointers swap characters until they meet. */
  method ReverseInPlace(result: array<char>, n: nat)
    requires 1 <= n <= result.Length
    modifies result
    ensures result[..n] == Reverse(old(result[..n]))
    ensures result[n..] == old(result[n..])
  {
    ghost var before := result[..];
    var ptr0, ptr1 := n - 1, 0;
    while ptr1 < ptr0
      invariant 0 <= ptr1 && ptr1 + ptr0 == n - 1 && -1 <= ptr0 && ptr1 <= ptr0 + 2
      invariant forall i {:trigger result[i]} :: 0 <= i < n ==>
        result[i] == if ptr1 <= i <= ptr0 then before[i] else before[n - 1 - i]
      invariant forall i :: n <= i < result.Length ==> result[i] == before[i]
      decreases ptr0 - ptr1
    {
      var tmpChar := result[ptr0];
      result[ptr0] := result[ptr1];
      ptr0 := ptr0 - 1;
      result[ptr1] := tmpChar;
      ptr1 := ptr1 + 1;
    }
    assert forall i :: 0 <= i < n ==> result[i] == before[n - 1 - i];
  }

  method Utoa(value: uint32, base: uint32, result: array<char>)
    requires result.Length >= 1
    requires 2 <= base <= 16 ==> |Canonical(value as nat, base as nat, true)| < result.Length
    modifies result
    ensures Holds(old(result[..]), result[..],
                  if 2 <= base <= 16 then Canonical(value as nat, base as nat, true) else "")
  {
    if base < 2 || base > 16 {
      result[0] := NUL;
      return;
    }
    var n := DigitsBackwards(value, base, result);
    result[n] := NUL;
    ghost var text := Canonical(value as nat, base as nat, true);
    assert result[..n] == Reverse(text);
    ReverseInPlace(result, n);
    assert result[..n] == text;
    assert result[n] == result[n..][0];
    assert result[..n + 1] == text + [NUL];
    assert result[n + 1..] == result[n..][1..];
  }
}
