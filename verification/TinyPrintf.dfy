/** The printf engine: format scanner, padding, and the two string sinks.

    A format is a text without NUL; in memory it is followed by one NUL, and the
    scanner never indexes past it. */
module TinyPrintf {
  import opened Arith
  import opened Digits
  import opened PrintfNumbers

  /** One variadic argument: the 32-bit word fetched for a number or character, and
      the text it points to when it is fetched as a string. */
  datatype Slot = Slot(word: uint32, text: string)

  type VaList = nat -> Slot

  ghost predicate Terminated(va: VaList) {
    forall k: nat :: NUL !in va(k).text
  }

  /** `struct param` without its buffer pointer. */
  datatype Param = Param(lz: bool, alt: bool, uc: bool, alignLeft: bool, width: uint32, sign: string, base: uint32)

  // ---- What the output should be ----

  /** A width of 2^31 or more turns negative when it is copied to an `int`. */
  function ToInt(w: uint32): int {
    if w < 0x8000_0000 then w as int else w as int - TWO32
  }

  function Repeat(n: int, c: char): (s: string)
    ensures |s| == (if n > 0 then n else 0) && forall i :: 0 <= i < |s| ==> s[i] == c
  {
    if n <= 0 then "" else Repeat(n - 1, c) + [c]
  }

  /** The marker of the alternate form. */
  function Prefix(p: Param): string {
    if p.alt && p.base == 16 then ['0', if p.uc then 'X' else 'x']
    else if p.alt && p.base == 8 then "0"
    else ""
  }

  /** How many filling characters a text needs. */
  function FillCount(p: Param, text: string): int {
    ToInt(p.width) - |text| - |p.sign| - |Prefix(p)|
  }

  /** A field: sign, marker and text in this order, filled in one place only -
      blanks on the left, zeros after the marker, or blanks on the right. */
  function Field(p: Param, text: string): string {
    var fill := FillCount(p, text);
    if p.lz then p.sign + Prefix(p) + Repeat(fill, '0') + text
    else if p.alignLeft then p.sign + Prefix(p) + text + Repeat(fill, ' ')
    else Repeat(fill, ' ') + p.sign + Prefix(p) + text
  }

  function Max(a: int, b: int): int {
    if a < b then b else a
  }

  /** Below 2^31, a width is the least number of characters printed. */
  lemma FieldLength(p: Param, text: string)
    requires p.width < 0x8000_0000
    ensures |Field(p, text)| == Max(p.width as int, |p.sign| + |Prefix(p)| + |text|)
  {
  }

  /** Sign, marker and text in order, with blanks before, zeros between and blanks after. */
  function Layout(p: Param, text: string, left: nat, zeros: nat, right: nat): string {
    Repeat(left, ' ') + p.sign + Prefix(p) + Repeat(zeros, '0') + text + Repeat(right, ' ')
  }

  /** Sign, marker and text survive unchanged and in order, and at most one of the
      three places is filled. */
  lemma FieldKeepsText(p: Param, text: string) returns (left: nat, zeros: nat, right: nat)
    ensures left + zeros + right == Max(0, FillCount(p, text))
    ensures left == 0 || (zeros == 0 && right == 0)
    ensures zeros == 0 || right == 0
    ensures Field(p, text) == Layout(p, text, left, zeros, right)
  {
    var fill := Max(0, FillCount(p, text));
    SameFill(fill, FillCount(p, text));
    left, zeros, right := 0, 0, 0;
    if p.lz {
      zeros := fill;
    } else if p.alignLeft {
      right := fill;
    } else {
      left := fill;
    }
  }

  /** The character the scanner reads at an index: the terminator at the end. */
  function At(f: string, i: nat): char
    requires i <= |f|
  {
    if i < |f| then f[i] else NUL
  }

  predicate IsFlag(c: char) {
    c == '-' || c == '0' || c == '#'
  }

  function FlagsEnd(f: string, i: nat): (e: nat)
    requires i <= |f|
    ensures i <= e <= |f|
    decreases |f| - i
  {
    if i < |f| && IsFlag(f[i]) then FlagsEnd(f, i + 1) else i
  }

  predicate IsDecimal(c: char) {
    '0' <= c <= '9'
  }

  function WidthEnd(f: string, i: nat): (e: nat)
    requires i <= |f|
    ensures i <= e <= |f|
  {
    if IsDecimal(At(f, i)) then DigitsEnd(f, i, 10) else i
  }

  function DecimalsEnd(f: string, i: nat): (e: nat)
    requires i <= |f|
    ensures i <= e <= |f|
    decreases |f| - i
  {
    if i < |f| && IsDecimal(f[i]) then DecimalsEnd(f, i + 1) else i
  }

  function PrecisionEnd(f: string, i: nat): (e: nat)
    requires i <= |f|
    ensures i <= e <= |f|
  {
    if At(f, i) == '.' then DecimalsEnd(f, i + 1) else i
  }

  function WidthOf(f: string, e: nat, w: nat): uint32
    requires e <= w <= |f|
  {
    (Value(f[e..w], 10) % TWO32) as uint32
  }

  /** The directive whose flags start at `i`: the settings it makes, and the index of
      its conversion character.  `base` and `uc` keep their earlier values. */
  function Directive(f: string, i: nat, p0: Param): (d: (Param, nat))
    requires i <= |f|
    ensures i <= d.1 <= |f|
  {
    var e := FlagsEnd(f, i);
    var w := WidthEnd(f, e);
    var q := PrecisionEnd(f, w);
    var flags := f[i..e];
    (Param('0' in flags || At(f, w) == '.', '#' in flags, p0.uc, '-' in flags, WidthOf(f, e, w), "", p0.base), q)
  }

  // ---- What a directive is meant to be ----

  /** The directive whose width is the run of decimal digits and nothing more. */
  function MeantDirective(f: string, i: nat, p0: Param): (d: (Param, nat))
    requires i <= |f|
    ensures i <= d.1 <= |f|
  {
    var e := FlagsEnd(f, i);
    var w := DecimalsEnd(f, e);
    var q := PrecisionEnd(f, w);
    var flags := f[i..e];
    (Param('0' in flags || At(f, w) == '.', '#' in flags, p0.uc, '-' in flags, WidthOf(f, e, w), "", p0.base), q)
  }

  /** The width of the directive at `i` is followed by a letter the parser takes for ten. */
  predicate WidthThenA(f: string, i: nat)
    requires i <= |f|
  {
    var e := FlagsEnd(f, i);
    var w := DecimalsEnd(f, e);
    w > e && (At(f, w) == 'a' || At(f, w) == 'A')
  }

  lemma {:induction false} DecimalsAreProper(f: string, i: nat)
    requires i <= |f|
    ensures DecimalsEnd(f, i) == ProperDigitsEnd(f, i, 10)
    decreases |f| - i
  {
    if i < |f| && IsDecimal(f[i]) {
      DecimalsAreProper(f, i + 1);
    }
  }

  /** A directive is what it is meant to be if and only if its width is not followed by
      'a' or 'A'. */
  lemma DirectiveIsMeantIff(f: string, i: nat, p0: Param)
    requires i <= |f|
    ensures Directive(f, i, p0) == MeantDirective(f, i, p0) <==> !WidthThenA(f, i)
  {
    var e := FlagsEnd(f, i);
    var w := DecimalsEnd(f, e);
    DecimalsAreProper(f, e);
    StopsAtDigitsIff(f, e, 10);
    if WidthThenA(f, i) {
      LongerRun(f, e);
      assert PrecisionEnd(f, w) == w;
    }
  }

  lemma {:induction false} LongerRun(f: string, i: nat)
    requires i <= |f|
    ensures DecimalsEnd(f, i) <= DigitsEnd(f, i, 10)
    decreases |f| - i
  {
    if i < |f| && IsDecimal(f[i]) {
      LongerRun(f, i + 1);
    }
  }

  /** The 32-bit word as a signed number: its sign and its magnitude. */
  function Signed(w: uint32): (string, uint32) {
    if w < 0x8000_0000 then ("", w) else ("-", (TWO32 - w as int) as uint32)
  }

  predicate IsNumeric(c: char) {
    c in {'u', 'd', 'i', 'p', 'x', 'X', 'o'}
  }

  /** The settings under which a numeric conversion prints, and the number it prints. */
  function Number(c: char, p: Param, word: uint32): (r: (Param, uint32))
    requires IsNumeric(c)
    ensures r.0.base in {8, 10, 16}
  {
    match c
    case 'u' => (p.(base := 10), word)
    case 'd' | 'i' =>
      var (sign, magnitude) := Signed(word);
      (p.(base := 10, sign := sign), magnitude)
    case 'p' => (p.(alt := true, base := 16, uc := false), word)
    case 'x' => (p.(base := 16, uc := false), word)
    case 'X' => (p.(base := 16, uc := true), word)
    case _ => (p.(base := 8), word)
  }

  function NumberField(p: Param, num: uint32): string
    requires p.base in {8, 10, 16}
  {
    Field(p, Canonical(num as nat, p.base as nat, p.uc))
  }

  /** What one conversion prints. */
  function Converted(c: char, p: Param, arg: Slot): string {
    if IsNumeric(c) then
      var (p', num) := Number(c, p, arg.word);
      NumberField(p', num)
    else
      match c
      case 'c' => [(arg.word as int % 256) as char]
      case 's' => Field(p, arg.text)
      case '%' => "%"
      case _ => ""
  }

  /** The settings it leaves. */
  function Settled(c: char, p: Param, arg: Slot): Param {
    if IsNumeric(c) then Number(c, p, arg.word).0 else p
  }

  /** The number of arguments taken after it, of `k` before. */
  function Taken(c: char, k: nat): nat {
    if IsNumeric(c) || c == 'c' || c == 's' then k + 1 else k
  }

  // ---- What is printed, written out ----

  /** The base a numeric conversion prints in. */
  function BaseOf(c: char): (base: nat)
    requires c in {'u', 'd', 'i', 'p', 'x', 'X', 'o'}
    ensures base == if c == 'o' then 8 else if c in {'u', 'd', 'i'} then 10 else 16
  {
    if c == 'o' then 8 else if c in {'p', 'x', 'X'} then 16 else 10
  }

  /** `text` is laid out as `sign`, `prefix`, zeros and `digits` in this order, filled up to the
      width in one place. */
  ghost predicate LaidOut(p: Param, text: string, sign: string, prefix: string, digits: string,
                          left: nat, zeros: nat, right: nat) {
    && text == Repeat(left, ' ') + sign + prefix + Repeat(zeros, '0') + digits + Repeat(right, ' ')
    && (left > 0 ==> !p.lz && !p.alignLeft) && (zeros > 0 ==> p.lz) && (right > 0 ==> !p.lz && p.alignLeft)
    && var width := if p.width < 0x8000_0000 then p.width as int else p.width as int - 0x1_0000_0000;
       left + zeros + right == Max(0, width - |sign| - |prefix| - |digits|)
  }

  /** `digits` is the number `v` in the given base: without leading zeros, in capital letters or
      in small ones. */
  ghost predicate Prints(digits: string, v: int, base: nat, capitals: bool) {
    && digits != "" && Value(digits, base) == v && (digits[0] != '0' || digits == "0")
    && forall i :: 0 <= i < |digits| ==>
         && 0 <= A2d(digits[i]) < base
         && digits[i] in if capitals then "0123456789ABCDEF" else "0123456789abcdef"
  }

  lemma FieldIsLaidOut(p: Param, digits: string) returns (left: nat, zeros: nat, right: nat)
    ensures LaidOut(p, Field(p, digits), p.sign, Prefix(p), digits, left, zeros, right)
  {
    var fill := Max(0, FillCount(p, digits));
    SameFill(fill, FillCount(p, digits));
    left, zeros, right := 0, 0, 0;
    if p.lz {
      zeros := fill;
    } else if p.alignLeft {
      right := fill;
    } else {
      left := fill;
    }
  }

  lemma DecimalOfBoth(ch: char)
    requires 0 <= A2d(ch) < 10
    ensures ch in "0123456789abcdef" && ch in "0123456789ABCDEF"
  {
    A2dIs(ch);
    assert ch == "0123456789abcdef"[A2d(ch)] == "0123456789ABCDEF"[A2d(ch)];
  }

  lemma DecimalsHaveNoCase(digits: string, v: int, base: nat, capitals: bool)
    requires Prints(digits, v, base, capitals) && base <= 10
    ensures Prints(digits, v, base, !capitals)
  {
    hide Value, A2d;
    forall i | 0 <= i < |digits|
      ensures digits[i] in if capitals then "0123456789abcdef" else "0123456789ABCDEF" {
      DecimalOfBoth(digits[i]);
    }
  }

  lemma CanonicalPrints(v: nat, base: nat, upper: bool)
    requires base in {8, 10, 16}
    ensures Prints(Canonical(v, base, upper), v, base, upper)
  {
    CanonicalDigits(v, base, upper);
    CanonicalCase(v, base, upper);
    CanonicalValue(v, base, upper);
  }

  lemma NumberIs(c: char, p: Param, word: uint32, p': Param, num: uint32)
    requires c in {'u', 'd', 'i', 'p', 'x', 'X', 'o'} && p.sign == "" && (p', num) == Number(c, p, word)
    ensures var negative := c in {'d', 'i'} && word >= 0x8000_0000;
            && p'.sign == (if negative then "-" else "")
            && num as int == if negative then 0x1_0000_0000 - word as int else word as int
    ensures p'.base as nat == BaseOf(c) && (BaseOf(c) == 16 ==> p'.uc == (c == 'X'))
    ensures p'.lz == p.lz && p'.alignLeft == p.alignLeft && p'.width == p.width
    ensures Prefix(p') == if c == 'p' then "0x" else if !p.alt then "" else
                          if c == 'x' then "0x" else if c == 'X' then "0X" else if c == 'o' then "0" else ""
  {
  }

  lemma NumberIsField(c: char, p: Param, arg: Slot, p': Param, num: uint32)
    requires IsNumeric(c) && (p', num) == Number(c, p, arg.word)
    ensures Converted(c, p, arg) == Field(p', Canonical(num as nat, p'.base as nat, p'.uc))
  {
  }

  lemma SameLayout(p: Param, p': Param, text: string, sign: string, prefix: string, digits: string,
                   left: nat, zeros: nat, right: nat)
    requires p'.lz == p.lz && p'.alignLeft == p.alignLeft && p'.width == p.width
    requires LaidOut(p', text, sign, prefix, digits, left, zeros, right)
    ensures LaidOut(p, text, sign, prefix, digits, left, zeros, right)
  {
  }

  /** A numeric directive prints the number in the argument: 'd' and 'i' as a signed number, with
      the sign in front, the others as it is; 'p' as 'x' with the marker of the alternate form. */
  lemma NumberIsPrinted(c: char, p: Param, arg: Slot)
    returns (sign: string, prefix: string, digits: string, left: nat, zeros: nat, right: nat)
    requires c in {'u', 'd', 'i', 'p', 'x', 'X', 'o'} && p.sign == ""
    ensures LaidOut(p, Converted(c, p, arg), sign, prefix, digits, left, zeros, right)
    ensures var negative := c in {'d', 'i'} && arg.word >= 0x8000_0000;
            && sign == (if negative then "-" else "")
            && Prints(digits, if negative then 0x1_0000_0000 - arg.word as int else arg.word as int, BaseOf(c), c == 'X')
    ensures prefix == if c == 'p' then "0x" else if !p.alt then "" else
                      if c == 'x' then "0x" else if c == 'X' then "0X" else if c == 'o' then "0" else ""
  {
    hide Prints, Field, Number, Prefix, LaidOut, Converted;
    var (p', num) := Number(c, p, arg.word);
    NumberIs(c, p, arg.word, p', num);
    NumberIsField(c, p, arg, p', num);
    sign, prefix, digits := p'.sign, Prefix(p'), Canonical(num as nat, p'.base as nat, p'.uc);
    left, zeros, right := FieldIsLaidOut(p', digits);
    SameLayout(p, p', Converted(c, p, arg), sign, prefix, digits, left, zeros, right);
    CanonicalPrints(num as nat, p'.base as nat, p'.uc);
    if p'.base != 16 && p'.uc {
      DecimalsHaveNoCase(digits, num as int, p'.base as nat, true);
    }
  }

  /** A string is laid out like a number without a sign; a character and a percent sign are printed
      as they are, and any other character prints nothing. */
  lemma OtherIsPrinted(c: char, p: Param, arg: Slot) returns (left: nat, zeros: nat, right: nat)
    requires c !in {'u', 'd', 'i', 'p', 'x', 'X', 'o'} && p.sign == ""
    ensures c == 's' && !p.alt ==> LaidOut(p, Converted(c, p, arg), "", "", arg.text, left, zeros, right)
    ensures c == 'c' ==> Converted(c, p, arg) == [(arg.word as int % 256) as char]
    ensures c == '%' ==> Converted(c, p, arg) == "%"
    ensures c !in {'s', 'c', '%'} ==> Converted(c, p, arg) == ""
  {
    left, zeros, right := FieldIsLaidOut(p, arg.text);
  }

  /** What a format is made of.  A conversion stands at index `at`; `p` is what its directive
      sets and `arg` the argument at hand. */
  datatype Item = Literal(c: char) | Conversion(at: nat, c: char, p: Param, arg: Slot)

  function Text(item: Item): string {
    match item
    case Literal(c) => [c]
    case Conversion(_, c, p, arg) => Converted(c, p, arg)
  }

  function Print(items: seq<Item>): string {
    if items == [] then "" else Text(items[0]) + Print(items[1..])
  }

  function Scanned(f: string, i: nat, p: Param, meant: bool): (d: (Param, nat))
    requires i <= |f|
    ensures i <= d.1 <= |f|
  {
    if meant then MeantDirective(f, i, p) else Directive(f, i, p)
  }

  /** The format from index `i` on, with `k` arguments already taken and its directives as they
      are scanned or as they are meant.  It ends early when it ends inside a directive. */
  function Items(f: string, i: nat, p: Param, va: VaList, k: nat, meant: bool): seq<Item>
    requires i <= |f|
    decreases |f| - i
  {
    if i == |f| then []
    else if f[i] != '%' then [Literal(f[i])] + Items(f, i + 1, p, va, k, meant)
    else
      var d := Scanned(f, i + 1, p, meant);
      if d.1 == |f| then []
      else
        var c := f[d.1];
        [Conversion(d.1, c, d.0, va(k))] + Items(f, d.1 + 1, Settled(c, d.0, va(k)), va, Taken(c, k), meant)
  }

  /** The whole output from index `i` on. */
  function Output(f: string, i: nat, p: Param, va: VaList, k: nat): string
    requires i <= |f|
  {
    Print(Items(f, i, p, va, k, false))
  }

  /** The output with every directive as it is meant to be. */
  function MeantOutput(f: string, i: nat, p: Param, va: VaList, k: nat): string
    requires i <= |f|
  {
    Print(Items(f, i, p, va, k, true))
  }

  lemma PrintStep(item: Item, rest: seq<Item>)
    ensures Print([item] + rest) == Text(item) + Print(rest)
  {
    assert ([item] + rest)[1..] == rest;
  }

  lemma LiteralOutput(f: string, i: nat, p: Param, va: VaList, k: nat) returns (rest: string)
    requires i < |f| && f[i] != '%'
    ensures rest == Output(f, i + 1, p, va, k) && Output(f, i, p, va, k) == [f[i]] + rest
  {
    rest := Output(f, i + 1, p, va, k);
    PrintStep(Literal(f[i]), Items(f, i + 1, p, va, k, false));
  }

  lemma EndedOutput(f: string, i: nat, p: Param, va: VaList, k: nat)
    requires i < |f| && f[i] == '%' && Directive(f, i + 1, p).1 == |f|
    ensures Output(f, i, p, va, k) == ""
  {
  }

  lemma ConversionItems(f: string, i: nat, p: Param, va: VaList, k: nat, meant: bool, d: (Param, nat), c: char, p': Param)
    requires i < |f| && f[i] == '%' && d == Scanned(f, i + 1, p, meant) && d.1 < |f| && c == f[d.1]
    requires p' == Settled(c, d.0, va(k))
    ensures Items(f, i, p, va, k, meant)
         == [Conversion(d.1, c, d.0, va(k))] + Items(f, d.1 + 1, p', va, Taken(c, k), meant)
  {
  }

  lemma ConversionOutput(f: string, i: nat, p: Param, va: VaList, k: nat, d: (Param, nat), c: char)
    returns (text: string, p': Param, k': nat, rest: string)
    requires i < |f| && f[i] == '%' && d == Directive(f, i + 1, p) && d.1 < |f| && c == f[d.1]
    ensures text == Converted(c, d.0, va(k)) && p' == Settled(c, d.0, va(k)) && k' == Taken(c, k)
    ensures rest == Output(f, d.1 + 1, p', va, k') && Output(f, i, p, va, k) == text + rest
  {
    text, p', k' := Converted(c, d.0, va(k)), Settled(c, d.0, va(k)), Taken(c, k);
    rest := Output(f, d.1 + 1, p', va, k');
    ConversionItems(f, i, p, va, k, false, d, c, p');
    PrintStep(Conversion(d.1, c, d.0, va(k)), Items(f, d.1 + 1, p', va, k', false));
  }

  // ---- What a format is scanned into, written out ----

  /** The flags of a directive stand in [i, e), its width in [e, w) and its precision, with the dot,
      in [w, q); at `q` is its conversion character or the end of the format. */
  predicate Spans(f: string, i: nat, e: nat, w: nat, q: nat) {
    && i <= e <= w <= q <= |f|
    && (forall k :: i <= k < e ==> f[k] in {'-', '0', '#'})
    && (e < |f| ==> f[e] !in {'-', '0', '#'})
    && (forall k :: e <= k < w ==> '0' <= f[k] <= '9')
    && (w < |f| ==> !('0' <= f[w] <= '9') && (w > e ==> f[w] !in {'a', 'A'}))
    && (if w < |f| && f[w] == '.' then
          q > w && (forall k :: w < k < q ==> '0' <= f[k] <= '9') && (q < |f| ==> !('0' <= f[q] <= '9'))
        else q == w)
  }

  lemma {:induction false} FlagsSpan(f: string, i: nat, e: nat)
    requires i <= e <= |f| && (forall k :: i <= k < e ==> f[k] in {'-', '0', '#'}) && (e < |f| ==> f[e] !in {'-', '0', '#'})
    ensures FlagsEnd(f, i) == e
    decreases e - i
  {
    if i < e {
      FlagsSpan(f, i + 1, e);
    }
  }

  lemma {:induction false} DecimalsSpan(f: string, i: nat, e: nat)
    requires i <= e <= |f| && (forall k :: i <= k < e ==> '0' <= f[k] <= '9') && (e < |f| ==> !('0' <= f[e] <= '9'))
    ensures DecimalsEnd(f, i) == e
    decreases e - i
  {
    if i < e {
      DecimalsSpan(f, i + 1, e);
    }
  }

  /** A directive sets zero fill for a '0' among its flags or a precision, the alternate form for a
      '#', the left edge for a '-', and the number before the precision for the width. */
  lemma DirectiveIs(f: string, i: nat, p0: Param, e: nat, w: nat, q: nat)
    requires Spans(f, i, e, w, q)
    ensures Value(f[e..w], 10) >= 0
    ensures Directive(f, i, p0) == (Param('0' in f[i..e] || q > w, '#' in f[i..e], p0.uc, '-' in f[i..e],
                                          (Value(f[e..w], 10) % 0x1_0000_0000) as uint32, "", p0.base), q)
  {
    hide Value;
    FlagsSpan(f, i, e);
    DecimalsSpan(f, e, w);
    if w < |f| && f[w] == '.' {
      DecimalsSpan(f, w + 1, q);
    }
    DirectiveIsMeantIff(f, i, p0);
    ValueNonNegative(f[e..w], 10);
  }

  /** Up to the next percent sign a format prints itself. */
  lemma {:induction false} LiteralRun(f: string, i: nat, j: nat, p: Param, va: VaList, k: nat)
    requires i <= j <= |f| && forall n :: i <= n < j ==> f[n] != '%'
    ensures Output(f, i, p, va, k) == f[i..j] + Output(f, j, p, va, k)
    decreases j - i
  {
    hide Output;
    if i < j {
      var rest := LiteralOutput(f, i, p, va, k);
      LiteralRun(f, i + 1, j, p, va, k);
      assert f[i..j] == [f[i]] + f[i + 1..j];
      Concat([f[i]], f[i + 1..j], Output(f, j, p, va, k));
    }
  }

  /** A directive of one conversion character alone prints it in full width. */
  lemma PlainDirective(c: char, p: Param, va: VaList)
    requires c !in {'-', '0', '#', '.', 'a', 'A'} && !('0' <= c <= '9')
    ensures Output(['%', c], 0, p, va, 0) == Converted(c, Param(false, false, p.uc, false, 0, "", p.base), va(0))
  {
    hide Converted, Directive, Settled;
    var f := ['%', c];
    DirectiveIs(f, 1, p, 1, 1, 1);
    assert f[1..1] == "";
    var text, p', k', rest := ConversionOutput(f, 0, p, va, 0, Directive(f, 1, p), c);
    assert rest == "";
  }

  /** The word of minus five prints as "-5". */
  lemma MinusFive(p: Param, va: VaList)
    requires va(0).word == 0xFFFF_FFFB
    ensures Output("%d", 0, p, va, 0) == "-5"
  {
    PlainDirective('d', p, va);
    assert Canonical(5, 10, p.uc) == "5";
  }

  /** How many of the items take an argument. */
  function Taking(items: seq<Item>): nat {
    if items == [] then 0
    else
      var item := items[|items| - 1];
      Taking(items[..|items| - 1])
      + if item.Conversion? && item.c in {'d', 'i', 'u', 'o', 'x', 'X', 'p', 'c', 's'} then 1 else 0
  }

  lemma {:induction false} TakingFirst(item: Item, items: seq<Item>)
    ensures Taking([item] + items) == Taking([item]) + Taking(items)
  {
    if items != [] {
      var n := |items| - 1;
      TakingFirst(item, items[..n]);
      assert ([item] + items)[..n + 1] == [item] + items[..n];
    } else {
      assert [item] + items == [item];
    }
  }

  /** A conversion gets the argument after those that the items before it have taken. */
  lemma {:induction false} ArgumentInTurn(f: string, i: nat, p: Param, va: VaList, k: nat, n: nat)
    requires i <= |f| && n < |Items(f, i, p, va, k, false)| && Items(f, i, p, va, k, false)[n].Conversion?
    ensures var items := Items(f, i, p, va, k, false);
            items[n].arg == va(k + Taking(items[..n])) && items[n].at < |f| && items[n].c == f[items[n].at]
    decreases |f| - i
  {
    hide Items, Taking;
    var items := Items(f, i, p, va, k, false);
    if n > 0 {
      var i', p', k' := FirstItem(f, i, p, va, k);
      var rest := Items(f, i', p', va, k', false);
      ArgumentInTurn(f, i', p', va, k', n - 1);
      TakingFirst(items[0], rest[..n - 1]);
      assert items[..n] == [items[0]] + rest[..n - 1];
    } else {
      FirstArgument(f, i, p, va, k);
      NothingTaken(items[..0]);
    }
  }

  lemma NothingTaken(items: seq<Item>)
    requires items == []
    ensures Taking(items) == 0
  {
  }

  lemma FirstArgument(f: string, i: nat, p: Param, va: VaList, k: nat)
    requires i <= |f| && Items(f, i, p, va, k, false) != [] && Items(f, i, p, va, k, false)[0].Conversion?
    ensures var item := Items(f, i, p, va, k, false)[0];
            item.arg == va(k) && item.at < |f| && item.c == f[item.at]
  {
    hide Converted, Settled;
  }

  /** The first item of a format and where the rest starts. */
  lemma FirstItem(f: string, i: nat, p: Param, va: VaList, k: nat) returns (i': nat, p': Param, k': nat)
    requires i <= |f| && Items(f, i, p, va, k, false) != []
    ensures i < i' <= |f| && k' == k + Taking([Items(f, i, p, va, k, false)[0]])
    ensures Items(f, i, p, va, k, false) == [Items(f, i, p, va, k, false)[0]] + Items(f, i', p', va, k', false)
  {
    hide Converted, Directive, Settled;
    if f[i] != '%' {
      i', p', k' := i + 1, p, k;
    } else {
      var d := Directive(f, i + 1, p);
      i', p', k' := d.1 + 1, Settled(f[d.1], d.0, va(k)), Taken(f[d.1], k);
    }
  }

  /** Where the directive whose flags start at `i` is meant to have its conversion character. */
  function MeantEnd(f: string, i: nat): (q: nat)
    requires i <= |f|
    ensures i <= q <= |f|
  {
    PrecisionEnd(f, DecimalsEnd(f, FlagsEnd(f, i)))
  }

  /** No directive from index `i` on has an 'a' or 'A' after its width. */
  predicate Sound(f: string, i: nat)
    requires i <= |f|
    decreases |f| - i
  {
    if i == |f| then true
    else if f[i] != '%' then Sound(f, i + 1)
    else
      var q := MeantEnd(f, i + 1);
      !WidthThenA(f, i + 1) && (q < |f| ==> Sound(f, q + 1))
  }

  lemma SameTail<T>(x: T, y: T, s: seq<T>, t: seq<T>)
    ensures [x] + s == [y] + t <==> x == y && s == t
  {
    assert ([x] + s)[0] == x && ([y] + t)[0] == y;
    assert ([x] + s)[1..] == s && ([y] + t)[1..] == t;
  }

  /** A format is scanned as it is meant, item by item, if and only if no directive in it has an
      'a' or 'A' after its width. */
  lemma {:induction false} ScannedAsMeantIff(f: string, i: nat, p: Param, va: VaList, k: nat)
    requires i <= |f|
    ensures Items(f, i, p, va, k, false) == Items(f, i, p, va, k, true) <==> Sound(f, i)
    decreases |f| - i
  {
    if i == |f| {
    } else if f[i] != '%' {
      ScannedAsMeantIff(f, i + 1, p, va, k);
      SameTail(Literal(f[i]), Literal(f[i]), Items(f, i + 1, p, va, k, false), Items(f, i + 1, p, va, k, true));
    } else {
      var m := MeantDirective(f, i + 1, p);
      DirectiveIsMeantIff(f, i + 1, p);
      SoundStep(f, i, p, m);
      if WidthThenA(f, i + 1) {
        SwallowsA(f, i + 1, p);
        ConversionsDiffer(f, i, p, va, k, Directive(f, i + 1, p), m);
      } else if m.1 < |f| {
        var c := f[m.1];
        var p' := Settled(c, m.0, va(k));
        ScannedAsMeantIff(f, m.1 + 1, p', va, Taken(c, k));
        SameConversion(f, i, p, va, k, m, c, p');
      }
    }
  }

  lemma SoundStep(f: string, i: nat, p: Param, m: (Param, nat))
    requires i < |f| && f[i] == '%' && m == MeantDirective(f, i + 1, p)
    ensures Sound(f, i) <==> !WidthThenA(f, i + 1) && (m.1 < |f| ==> Sound(f, m.1 + 1))
  {
  }

  /** Where the directives agree, the items differ only if those after them do. */
  lemma SameConversion(f: string, i: nat, p: Param, va: VaList, k: nat, d: (Param, nat), c: char, p': Param)
    requires i < |f| && f[i] == '%' && d == Directive(f, i + 1, p) == MeantDirective(f, i + 1, p)
    requires d.1 < |f| && c == f[d.1] && p' == Settled(c, d.0, va(k))
    ensures Items(f, i, p, va, k, false) == Items(f, i, p, va, k, true)
       <==> Items(f, d.1 + 1, p', va, Taken(c, k), false) == Items(f, d.1 + 1, p', va, Taken(c, k), true)
  {
    var item := Conversion(d.1, c, d.0, va(k));
    ConversionItems(f, i, p, va, k, false, d, c, p');
    ConversionItems(f, i, p, va, k, true, d, c, p');
    SameTail(item, item, Items(f, d.1 + 1, p', va, Taken(c, k), false), Items(f, d.1 + 1, p', va, Taken(c, k), true));
  }

  lemma SwallowsA(f: string, i: nat, p: Param)
    requires i <= |f| && WidthThenA(f, i)
    ensures MeantDirective(f, i, p).1 < Directive(f, i, p).1
  {
    var e := FlagsEnd(f, i);
    var w := DecimalsEnd(f, e);
    DecimalsAreProper(f, e);
    StopsAtDigitsIff(f, e, 10);
    LongerRun(f, e);
    assert PrecisionEnd(f, w) == w;
  }

  lemma ConversionsDiffer(f: string, i: nat, p: Param, va: VaList, k: nat, d: (Param, nat), m: (Param, nat))
    requires i < |f| && f[i] == '%' && d == Directive(f, i + 1, p) && m == MeantDirective(f, i + 1, p) && m.1 < d.1
    ensures Items(f, i, p, va, k, false) != Items(f, i, p, va, k, true)
  {
    var items, meant := Items(f, i, p, va, k, false), Items(f, i, p, va, k, true);
    assert meant[0].at == m.1;
    assert items != [] ==> items[0].at == d.1;
  }

  /** Such a format prints what it is meant to print. */
  lemma OutputIsMeant(f: string, i: nat, p: Param, va: VaList, k: nat)
    requires i <= |f| && Sound(f, i)
    ensures Output(f, i, p, va, k) == MeantOutput(f, i, p, va, k)
  {
    ScannedAsMeantIff(f, i, p, va, k);
  }

  /** "%5ad" is meant to print "d" after an unknown conversion; it prints a number in a
      field of sixty characters. */
  lemma FiveAd(p: Param, va: VaList)
    ensures MeantOutput("%5ad", 0, p, va, 0) == "d"
    ensures |Output("%5ad", 0, p, va, 0)| >= 60
  {
    var f := "%5ad";
    assert f[0] == '%' && f[1] == '5' && f[2] == 'a' && f[3] == 'd';
    assert FlagsEnd(f, 1) == 1 && DecimalsEnd(f, 1) == 2;
    assert DigitsEnd(f, 1, 10) == 3;
    assert f[1..2] == "5" && f[1..3] == "5a" && "5a"[..1] == "5" && "5"[..0] == "";
    assert Value("5a", 10) == 60;
    var (d, q) := Directive(f, 1, p);
    assert q == 3 && d.width == 60;
    var (p', num) := Number('d', d, va(0).word);
    FieldLength(p', Canonical(num as nat, 10, p'.uc));
    var (m, w) := MeantDirective(f, 1, p);
    assert w == 2;
    assert MeantOutput(f, 3, m, va, 0) == "d" + MeantOutput(f, 4, m, va, 0);
  }

  // ---- The sinks ----

  /** The data behind the output callback.  A bounded sink drops what does not fit
      and goes on counting; an unbounded one stores everything. */
  class Sink {
    const dest: array<char>
    const bounded: bool
    const capacity: nat
    var numChars: nat
    ghost var log: string
    ghost const initial: seq<char>

    /** How many of the characters received are in the buffer. */
    ghost function Stored(): nat
      reads this
    {
      if bounded && capacity < |log| then capacity else |log|
    }

    ghost predicate Valid()
      reads this, dest
    {
      && capacity <= dest.Length && |initial| == dest.Length
      && numChars == |log| && Stored() <= dest.Length
      && dest[..Stored()] == log[..Stored()]
      && dest[Stored()..] == initial[Stored()..]
    }

    /** `n` more characters can be received. */
    ghost predicate Room(n: nat)
      reads this
    {
      !bounded ==> |log| + n <= dest.Length
    }

    constructor (str: array<char>, bounded: bool, capacity: nat)
      requires capacity <= str.Length
      ensures Valid() && log == "" && dest == str && this.bounded == bounded && this.capacity == capacity
      ensures initial == str[..]
    {
      this.dest, this.bounded, this.capacity := str, bounded, capacity;
      numChars := 0;
      log := "";
      initial := str[..];
    }

    /** The output callback. */
    method Putf(c: char)
      requires Valid() && Room(1)
      modifies this, dest
      ensures Valid() && log == old(log) + [c]
    {
      if bounded {
        if numChars < capacity {
          dest[numChars] := c;
        }
      } else {
        dest[numChars] := c;
      }
      numChars := numChars + 1;
      log := log + [c];
      assert log[..old(Stored())] == old(log)[..old(Stored())];
      assert dest[..old(Stored())] == old(dest[..Stored()]);
      if Stored() > old(Stored()) {
        assert dest[..Stored()] == dest[..old(Stored())] + [c];
        assert log[..Stored()] == log[..old(Stored())] + [c];
      }
      assert dest[Stored()..] == old(dest[Stored()..])[Stored() - old(Stored())..];
    }

    /** Receives a character `n` times. */
    method Fill(n0: int, c: char)
      requires Valid() && Room(if n0 > 0 then n0 else 0)
      modifies this, dest
      ensures Valid() && log == old(log) + Repeat(n0, c)
    {
      var n := n0;
      ghost var sent: nat := 0;
      while n > 0
        invariant Valid() && sent + Max(n, 0) == Max(n0, 0)
        invariant log == old(log) + Repeat(sent, c)
        decreases n
      {
        sent := sent + 1;
        n := n - 1;
        Putf(c);
      }
    }
  }

  // ---- The engine ----

  /** `bf` is a text followed by its terminator, and possibly more. */
  ghost predicate IsText(bf: seq<char>, text: string) {
    && |text| < |bf| && bf[|text|] == NUL
    && forall i :: 0 <= i < |text| ==> bf[i] == text[i] && bf[i] != NUL
  }

  /** Sends the characters up to the terminator. */
  method PutText(sink: Sink, bf: seq<char>, ghost text: string)
    requires sink.Valid() && sink.Room(|text|)
    requires IsText(bf, text)
    modifies sink, sink.dest
    ensures sink.Valid() && sink.log == old(sink.log) + text
  {
    var i := 0;
    while bf[i] != NUL
      invariant i <= |text| && sink.Valid() && sink.log == old(sink.log) + text[..i]
      decreases |text| - i
    {
      sink.Putf(bf[i]);
      i := i + 1;
    }
    assert text[..|text|] == text;
  }

  /** The number of filling characters, counted down while the text is scanned. */
  method CountFill(p: Param, bf: seq<char>, ghost text: string) returns (n: int)
    requires IsText(bf, text)
    ensures Max(n, 0) == Max(FillCount(p, text), 0)
  {
    n := ToInt(p.width);
    var i := 0;
    while bf[i] != NUL && n > 0
      invariant i <= |text| && n == ToInt(p.width) - i && (i > 0 ==> n >= 0)
      decreases |text| - i
    {
      n := n - 1;
      i := i + 1;
    }
    n := n - |p.sign|;
    if p.alt && p.base == 16 {
      n := n - 2;
    } else if p.alt && p.base == 8 {
      n := n - 1;
    }
  }

  method PutSeq(sink: Sink, s: string)
    requires sink.Valid() && sink.Room(|s|)
    modifies sink, sink.dest
    ensures sink.Valid() && sink.log == old(sink.log) + s
  {
    for i := 0 to |s|
      invariant sink.Valid() && sink.log == old(sink.log) + s[..i]
    {
      sink.Putf(s[i]);
    }
    assert s[..|s|] == s;
  }

  /** Sign and marker of the alternate form. */
  method PutSignAndPrefix(sink: Sink, p: Param)
    requires sink.Valid() && sink.Room(|p.sign + Prefix(p)|)
    modifies sink, sink.dest
    ensures sink.Valid() && sink.log == old(sink.log) + (p.sign + Prefix(p))
  {
    PutSeq(sink, p.sign);
    if p.alt && p.base == 16 {
      sink.Putf('0');
      sink.Putf(if p.uc then 'X' else 'x');
    } else if p.alt && p.base == 8 {
      sink.Putf('0');
    }
  }

  /** Fills when the condition holds. */
  method FillIf(sink: Sink, condition: bool, n: int, c: char)
    requires sink.Valid() && sink.Room(|FillText(condition, n, c)|)
    modifies sink, sink.dest
    ensures sink.Valid() && sink.log == old(sink.log) + FillText(condition, n, c)
  {
    if condition {
      sink.Fill(n, c);
    }
  }

  function FillText(condition: bool, n: int, c: char): string {
    if condition then Repeat(n, c) else ""
  }

  lemma FieldParts(p: Param, text: string, n: int)
    requires Max(n, 0) == Max(FillCount(p, text), 0)
    ensures Field(p, text) == FillText(!p.lz && !p.alignLeft, n, ' ') + (p.sign + Prefix(p)) + FillText(p.lz, n, '0')
                            + text + FillText(!p.lz && p.alignLeft, n, ' ')
  {
    hide Prefix, FillCount;
    SameFill(n, FillCount(p, text));
  }

  /** `putchw`: one field. */
  method Putchw(sink: Sink, p: Param, bf: seq<char>, ghost text: string)
    requires sink.Valid() && sink.Room(|Field(p, text)|)
    requires IsText(bf, text)
    modifies sink, sink.dest
    ensures sink.Valid() && sink.log == old(sink.log) + Field(p, text)
  {
    var n := CountFill(p, bf, text);
    FieldParts(p, text, n);
    ghost var log := sink.log;
    FillIf(sink, !p.lz && !p.alignLeft, n, ' ');
    PutSignAndPrefix(sink, p);
    FillIf(sink, p.lz, n, '0');
    PutText(sink, bf, text);
    FillIf(sink, !p.lz && p.alignLeft, n, ' ');
    ConcatFive(log, FillText(!p.lz && !p.alignLeft, n, ' '), p.sign + Prefix(p), FillText(p.lz, n, '0'), text,
               FillText(!p.lz && p.alignLeft, n, ' '));
  }

  lemma ConcatFive(l: string, a: string, b: string, c: string, d: string, e: string)
    ensures l + a + b + c + d + e == l + (a + b + c + d + e)
  {
  }

  lemma SameFill(n: int, m: int)
    requires Max(n, 0) == Max(m, 0)
    ensures Repeat(n, ' ') == Repeat(m, ' ') && Repeat(n, '0') == Repeat(m, '0')
  {
  }

  /** Prints a number through the engine's own 12-character buffer. */
  method PutNumber(sink: Sink, p: Param, bf: array<char>, num: uint32)
    requires bf.Length == 12 && bf != sink.dest && p.base in {8, 10, 16}
    requires sink.Valid() && sink.Room(|NumberField(p, num)|)
    modifies sink, sink.dest, bf
    ensures sink.Valid() && sink.log == old(sink.log) + NumberField(p, num)
  {
    ghost var text := Canonical(num as nat, p.base as nat, p.uc);
    FitsTwelve(num, p.base as nat, p.uc);
    CanonicalDigits(num as nat, p.base as nat, p.uc);
    Ui2a(num, p.base, p.uc, bf);
    var s := bf[..];
    assert forall i :: 0 <= i <= |text| ==> s[i] == s[..|text| + 1][i];
    Putchw(sink, p, s, text);
  }

  /** Settles base, case and sign for a numeric conversion. */
  method Prepare(c: char, p: Param, word: uint32) returns (p': Param, num: uint32)
    requires IsNumeric(c)
    ensures (p', num) == Number(c, p, word)
  {
    p', num := p, word;
    match c
    case 'u' =>
      p' := p'.(base := 10);
    case 'd' | 'i' =>
      p' := p'.(base := 10, sign := "");
      if num >= 0x8000_0000 {
        num := (TWO32 - num as int) as uint32;
        p' := p'.(sign := "-");
      }
    case 'p' =>
      p' := p'.(alt := true, base := 16, uc := false);
    case 'x' =>
      p' := p'.(base := 16, uc := false);
    case 'X' =>
      p' := p'.(base := 16, uc := true);
    case _ =>
      p' := p'.(base := 8);
  }

  /** A numeric conversion. */
  method PutNumeric(sink: Sink, c: char, p: Param, bf: array<char>, arg: Slot) returns (p': Param)
    requires bf.Length == 12 && bf != sink.dest && IsNumeric(c)
    requires sink.Valid() && sink.Room(|Converted(c, p, arg)|)
    modifies sink, sink.dest, bf
    ensures sink.Valid() && sink.log == old(sink.log) + Converted(c, p, arg)
    ensures p' == Settled(c, p, arg)
  {
    var num;
    p', num := Prepare(c, p, arg.word);
    PutNumber(sink, p', bf, num);
  }

  /** One directive after its conversion character has been read. */
  method PutDirective(sink: Sink, c: char, p: Param, bf: array<char>, arg: Slot, k: nat) returns (p': Param, k': nat)
    requires bf.Length == 12 && bf != sink.dest && NUL !in arg.text
    requires sink.Valid() && sink.Room(|Converted(c, p, arg)|)
    modifies sink, sink.dest, bf
    ensures sink.Valid() && sink.log == old(sink.log) + Converted(c, p, arg)
    ensures p' == Settled(c, p, arg) && k' == Taken(c, k)
  {
    p', k' := p, k + 1;
    match c
    case 'u' | 'd' | 'i' | 'p' | 'x' | 'X' | 'o' =>
      p' := PutNumeric(sink, c, p, bf, arg);
    case 'c' =>
      sink.Putf((arg.word as int % 256) as char);
    case 's' =>
      Putchw(sink, p', arg.text + [NUL], arg.text);
    case '%' =>
      sink.Putf(c);
      k' := k;
    case _ =>
      k' := k;
  }

  /** Flags: `fmt0` is the index after the `%`; on return `ch` is the first character
      that is no flag, and `fmt` the index after it. */
  method ScanFlags(f: string, fmt0: nat, p0: Param) returns (p: Param, ch: char, fmt: nat)
    requires fmt0 <= |f| && NUL !in f
    ensures var e := FlagsEnd(f, fmt0);
      && fmt == e + 1 && ch == At(f, e)
      && p == Param('0' in f[fmt0..e], '#' in f[fmt0..e], p0.uc, '-' in f[fmt0..e], 0, "", p0.base)
  {
    var mem := f + [NUL];
    p := p0.(lz := false, alt := false, width := 0, alignLeft := false, sign := "");
    ch, fmt := mem[fmt0], fmt0 + 1;
    while ch == '-' || ch == '0' || ch == '#'
      invariant fmt0 < fmt <= |f| + 1 && ch == At(f, fmt - 1)
      invariant FlagsEnd(f, fmt0) == FlagsEnd(f, fmt - 1)
      invariant p == Param('0' in f[fmt0..fmt - 1], '#' in f[fmt0..fmt - 1], p0.uc, '-' in f[fmt0..fmt - 1], 0, "", p0.base)
      decreases |f| + 1 - fmt
    {
      assert f[fmt0..fmt] == f[fmt0..fmt - 1] + [ch];
      if ch == '-' {
        p := p.(alignLeft := true);
      } else if ch == '0' {
        p := p.(lz := true);
      } else {
        p := p.(alt := true);
      }
      ch, fmt := mem[fmt], fmt + 1;
    }
  }

  lemma WrappedIsWidth(f: string, i: nat, e: nat, num: nat)
    requires i <= e <= |f| && IsWrapped(f + [NUL], i, e, 10, num)
    ensures num == WidthOf(f, i, e) as nat
  {
    assert (f + [NUL])[i..e] == f[i..e];
  }

  /** Width: `ch0` has been read at `fmt0 - 1`. */
  method ScanWidth(f: string, ch0: char, fmt0: nat) returns (width: uint32, ch: char, fmt: nat)
    requires 1 <= fmt0 <= |f| + 1 && ch0 == At(f, fmt0 - 1)
    ensures var w := WidthEnd(f, fmt0 - 1);
      fmt == w + 1 && ch == At(f, w) && width == WidthOf(f, fmt0 - 1, w)
  {
    width, ch, fmt := 0, ch0, fmt0;
    var mem := f + [NUL];
    if '0' <= ch <= '9' {
      DigitsEndInText(f, fmt0 - 1, 10);
      ghost var wrapped;
      ch, fmt, width, wrapped := A2u(ch, mem, fmt, 10);
      WrappedIsWidth(f, fmt0 - 1, fmt - 1, width as nat);
    } else {
      assert f[fmt0 - 1..fmt0 - 1] == "";
    }
  }

  /** Precision: a dot and the decimals after it are skipped. */
  method ScanPrecision(f: string, ch0: char, fmt0: nat) returns (dot: bool, ch: char, fmt: nat)
    requires 1 <= fmt0 <= |f| + 1 && ch0 == At(f, fmt0 - 1) && NUL !in f
    ensures var q := PrecisionEnd(f, fmt0 - 1);
      fmt == q + 1 && ch == At(f, q) && dot == (ch0 == '.')
  {
    dot, ch, fmt := false, ch0, fmt0;
    var mem := f + [NUL];
    if ch == '.' {
      dot := true;
      ch, fmt := mem[fmt], fmt + 1;
      while '0' <= ch <= '9'
        invariant fmt0 < fmt <= |f| + 1 && ch == At(f, fmt - 1)
        invariant DecimalsEnd(f, fmt0) == DecimalsEnd(f, fmt - 1)
        decreases |f| + 1 - fmt
      {
        ch, fmt := mem[fmt], fmt + 1;
      }
    }
  }

  /** The flags, width and precision of one directive.  `fmt0` is the index after the
      `%`; on return `ch` is the conversion character and `fmt` the index after it. */
  method ScanDirective(f: string, fmt0: nat, p0: Param) returns (p: Param, ch: char, fmt: nat)
    requires fmt0 <= |f| && NUL !in f
    ensures var (d, q) := Directive(f, fmt0, p0);
      p == d && fmt == q + 1 && ch == At(f, q)
  {
    p, ch, fmt := ScanFlags(f, fmt0, p0);
    var width;
    width, ch, fmt := ScanWidth(f, ch, fmt);
    p := p.(width := width);
    var dot;
    dot, ch, fmt := ScanPrecision(f, ch, fmt);
    if dot {
      p := p.(lz := true);
    }
  }

  lemma {:induction false} DigitsEndInText(f: string, i: nat, base: nat)
    requires i <= |f|
    ensures DigitsEnd(f + [NUL], i, base) == DigitsEnd(f, i, base)
    decreases |f| - i
  {
    if i < |f| {
      DigitsEndInText(f, i + 1, base);
    }
  }

  /** One directive, whose `%` is at index `fmt0 - 1`; `out` is the output from there on and
      `rest` what is left of it.  `ended` tells that the format ended inside the directive. */
  method PutWholeDirective(sink: Sink, f: string, fmt0: nat, p: Param, va: VaList, k: nat, bf: array<char>, ghost out: string)
    returns (p': Param, k': nat, fmt: nat, ended: bool, ghost rest: string)
    requires 1 <= fmt0 <= |f| && f[fmt0 - 1] == '%' && NUL !in f && Terminated(va)
    requires bf.Length == 12 && bf != sink.dest
    requires out == Output(f, fmt0 - 1, p, va, k) && sink.Valid() && sink.Room(|out|)
    modifies sink, sink.dest, bf
    ensures sink.Valid() && (if ended then fmt == |f| + 1 else fmt0 <= fmt <= |f|)
    ensures rest == if ended then "" else Output(f, fmt, p', va, k')
    ensures old(sink.log) + out == sink.log + rest
  {
    hide Output, Directive, Converted, Settled;
    var d, ch;
    d, ch, fmt := ScanDirective(f, fmt0, p);
    p', k', ended, rest := p, k, ch == NUL, "";
    if ended {
      EndedOutput(f, fmt0 - 1, p, va, k);
    } else {
      ghost var text, after, taken;
      text, after, taken, rest := ConversionOutput(f, fmt0 - 1, p, va, k, (d, fmt - 1), ch);
      p', k' := PutDirective(sink, ch, d, bf, va(k), k);
      Concat(old(sink.log), text, rest);
    }
  }

  /** One literal character, or one directive: the character `ch` at index `fmt - 1`
      and what belongs to it. */
  method PutItem(sink: Sink, f: string, ch0: char, fmt: nat, p: Param, va: VaList, k: nat, bf: array<char>, ghost out: string)
    returns (p': Param, k': nat, fmt': nat, ended: bool, ghost rest: string)
    requires 1 <= fmt <= |f| && f[fmt - 1] == ch0 && NUL !in f && Terminated(va)
    requires bf.Length == 12 && bf != sink.dest
    requires out == Output(f, fmt - 1, p, va, k) && sink.Valid() && sink.Room(|out|)
    modifies sink, sink.dest, bf
    ensures sink.Valid() && (if ended then fmt' == |f| + 1 else fmt <= fmt' <= |f|)
    ensures rest == if ended then "" else Output(f, fmt', p', va, k')
    ensures old(sink.log) + out == sink.log + rest
  {
    hide Output;
    if ch0 != '%' {
      p', k', fmt', ended := p, k, fmt, false;
      rest := LiteralOutput(f, fmt - 1, p, va, k);
      Concat(sink.log, [ch0], rest);
      sink.Putf(ch0);
    } else {
      p', k', fmt', ended, rest := PutWholeDirective(sink, f, fmt, p, va, k, bf, out);
    }
  }

  lemma Concat(a: string, b: string, c: string)
    ensures a + b + c == a + (b + c)
  {
  }

  /** The character `ch`, at index `fmt - 1`, comes next, and `rest` is to be put from there on. */
  ghost predicate Formatting(f: string, ch: char, fmt: nat, p: Param, va: VaList, k: nat, rest: string) {
    1 <= fmt <= |f| + 1 && ch == At(f, fmt - 1) && rest == Output(f, fmt - 1, p, va, k)
  }

  lemma StillFormatting(f: string, fmt: nat, p: Param, va: VaList, k: nat, rest: string)
    requires fmt <= |f| && rest == Output(f, fmt, p, va, k)
    ensures Formatting(f, At(f, fmt), fmt + 1, p, va, k, rest)
  {
  }

  lemma NothingLeft(f: string, fmt: nat, p: Param, va: VaList, k: nat, rest: string)
    requires NUL !in f && Formatting(f, NUL, fmt, p, va, k, rest)
    ensures rest == ""
  {
  }

  /** `tfp_format`: the output callback receives exactly the specified output. */
  method TfpFormat(sink: Sink, f: string, va: VaList, p0: Param)
    requires NUL !in f && Terminated(va)
    requires sink.Valid() && sink.Room(|Output(f, 0, p0, va, 0)|)
    modifies sink, sink.dest
    ensures sink.Valid() && sink.log == old(sink.log) + Output(f, 0, p0, va, 0)
  {
    hide Output;
    var bf := new char[12];
    var p, k, fmt := p0, 0, 0;
    var ch := At(f, fmt);
    fmt := fmt + 1;
    ghost var rest := Output(f, 0, p0, va, 0);
    ghost var total := sink.log + rest;
    while ch != NUL
      invariant sink.Valid() && total == sink.log + rest && sink.Room(|rest|)
      invariant Formatting(f, ch, fmt, p, va, k, rest)
      decreases |f| + 1 - fmt
    {
      var ended;
      p, k, fmt, ended, rest := PutItem(sink, f, ch, fmt, p, va, k, bf, rest);
      if ended {
        break;
      }
      StillFormatting(f, fmt, p, va, k, rest);
      ch := At(f, fmt);
      fmt := fmt + 1;
    }
    if ch == NUL {
      NothingLeft(f, fmt, p, va, k, rest);
    }
  }

  function Min(a: nat, b: nat): nat {
    if a < b then a else b
  }

  lemma TerminatorHolds(before: seq<char>, mid: seq<char>, text: string)
    requires |before| == |mid| && |text| < |mid|
    requires mid[..|text|] == text && mid[|text|..] == before[|text|..]
    ensures Holds(before, mid[|text| := NUL], text)
  {
    assert before[|text|..][1..] == before[|text| + 1..];
    assert mid[|text|..][1..] == mid[|text| + 1..];
  }

  /** `tfp_vsnprintf`: the buffer gets what fits, always terminated, and the full
      length of the output is returned. */
  method TfpVsnprintf(str: array<char>, size: nat, f: string, va: VaList, p0: Param) returns (len: nat)
    requires NUL !in f && Terminated(va) && size <= str.Length
    modifies str
    ensures size == 0 ==> len == 0 && str[..] == old(str[..])
    ensures size >= 1 ==>
      var out := Output(f, 0, p0, va, 0);
      && len == |out|
      && Holds(old(str[..]), str[..], out[..Min(|out|, size - 1)])
      && str[if |out| < size then |out| else size - 1] == NUL
  {
    if size < 1 {
      return 0;
    }
    var sink := new Sink(str, true, size - 1);
    ghost var out := Output(f, 0, p0, va, 0);
    TfpFormat(sink, f, va, p0);
    assert sink.log == out;
    ghost var stored, mid := sink.Stored(), str[..];
    if sink.numChars < sink.capacity {
      str[sink.numChars] := NUL;
    } else {
      str[sink.capacity] := NUL;
    }
    assert str[..] == mid[stored := NUL];
    TerminatorHolds(old(str[..]), mid, out[..stored]);
    len := sink.numChars;
  }

  /** `tfp_vsprintf`: the whole output, terminated; the caller provides the room. */
  method TfpVsprintf(str: array<char>, f: string, va: VaList, p0: Param) returns (len: nat)
    requires NUL !in f && Terminated(va) && |Output(f, 0, p0, va, 0)| < str.Length
    modifies str
    ensures len == |Output(f, 0, p0, va, 0)|
    ensures Holds(old(str[..]), str[..], Output(f, 0, p0, va, 0))
  {
    var sink := new Sink(str, false, 0);
    ghost var out := Output(f, 0, p0, va, 0);
    TfpFormat(sink, f, va, p0);
    assert sink.log == out && sink.Stored() == |out|;
    str[sink.numChars] := NUL;
    assert str[..|out| + 1] == out + [NUL];
    len := sink.numChars;
  }
}
