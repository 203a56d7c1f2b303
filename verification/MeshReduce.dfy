/** Reducing one value per tile over a mesh in two phases: every column into its topmost
    tile, then the top row into tile 0. The network merges contributions pairwise as they
    meet, in no order the program chooses. */
module MeshReduce {
  import opened Arith
  import Digits

  type Word = x: nat | x < TWO32

  /** A reduction as the network makes it: which partial results met. */
  datatype Merge<T> = Own(value: T) | Meet(left: Merge<T>, right: Merge<T>)

  datatype Op<!T> = Op(apply: (T, T) -> T)

  ghost predicate Associative<T(!new)>(op: Op<T>) {
    forall a, b, c :: op.apply(op.apply(a, b), c) == op.apply(a, op.apply(b, c))
  }

  ghost predicate Commutative<T(!new)>(op: Op<T>) {
    forall a, b :: op.apply(a, b) == op.apply(b, a)
  }

  function Result<T>(op: Op<T>, m: Merge<T>): T {
    match m
    case Own(value) => value
    case Meet(left, right) => op.apply(Result(op, left), Result(op, right))
  }

  /** The values merged, left to right. */
  function Values<T>(m: Merge<T>): (s: seq<T>)
    ensures s != []
  {
    match m
    case Own(value) => [value]
    case Meet(left, right) => Values(left) + Values(right)
  }

  /** The values folded one after another. */
  function Fold<T>(op: Op<T>, s: seq<T>): T
    requires s != []
  {
    if |s| == 1 then s[0] else op.apply(Fold(op, s[..|s| - 1]), s[|s| - 1])
  }

  lemma {:induction false} FoldConcat<T(!new)>(op: Op<T>, s: seq<T>, t: seq<T>)
    requires Associative(op) && s != [] && t != []
    ensures Fold(op, s + t) == op.apply(Fold(op, s), Fold(op, t))
  {
    var n := |t| - 1;
    if n == 0 {
      assert (s + t)[..|s + t| - 1] == s;
    } else {
      assert (s + t)[..|s + t| - 1] == s + t[..n];
      FoldConcat(op, s, t[..n]);
      assert op.apply(op.apply(Fold(op, s), Fold(op, t[..n])), t[n])
          == op.apply(Fold(op, s), op.apply(Fold(op, t[..n]), t[n]));
    }
  }

  /** However the contributions meet, the result is the fold of the values in that order. */
  lemma {:induction false} MergeFolds<T(!new)>(op: Op<T>, m: Merge<T>)
    requires Associative(op)
    ensures Result(op, m) == Fold(op, Values(m))
  {
    match m
    case Own(value) =>
    case Meet(left, right) =>
      MergeFolds(op, left);
      MergeFolds(op, right);
      FoldConcat(op, Values(left), Values(right));
  }

  lemma Commutes<T(!new)>(op: Op<T>, a: T, b: T)
    requires Commutative(op)
    ensures op.apply(a, b) == op.apply(b, a)
  {
  }

  lemma {:induction false} SwapLast<T(!new)>(op: Op<T>, f: T, a: T, b: T)
    requires Associative(op) && Commutative(op)
    ensures op.apply(op.apply(f, a), b) == op.apply(op.apply(f, b), a)
  {
    assert op.apply(op.apply(f, a), b) == op.apply(f, op.apply(a, b));
    assert op.apply(op.apply(f, b), a) == op.apply(f, op.apply(b, a));
  }

  /** Taking one value out of the middle and folding it in last changes nothing. */
  lemma {:induction false} FoldMoveLast<T(!new)>(op: Op<T>, s: seq<T>, i: nat)
    requires Associative(op) && Commutative(op) && i < |s| && |s| > 1
    ensures Fold(op, s) == op.apply(Fold(op, s[..i] + s[i + 1..]), s[i])
  {
    hide Associative, Commutative;
    var n := |s| - 1;
    if i == n {
      assert s[..i] + s[i + 1..] == s[..n];
    } else if n == 1 {
      assert s[..n] == [s[0]] && s[..i] + s[i + 1..] == [s[1]];
      Commutes(op, s[0], s[1]);
    } else {
      var rest := s[..i] + s[i + 1..];
      FoldMoveLast(op, s[..n], i);
      assert rest[..n - 1] == s[..n][..i] + s[..n][i + 1..];
      assert rest[n - 1] == s[n];
      SwapLast(op, Fold(op, rest[..n - 1]), s[i], s[n]);
    }
  }

  /** Where the last value of `s` stands in a reordering `t` of it. */
  lemma {:induction false} FindLast<T>(s: seq<T>, t: seq<T>) returns (i: nat)
    requires s != [] && multiset(s) == multiset(t)
    ensures |s| == |t| && i < |t| && t[i] == s[|s| - 1]
    ensures multiset(t[..i] + t[i + 1..]) == multiset(s[..|s| - 1])
  {
    var n := |s| - 1;
    assert s == s[..n] + [s[n]];
    assert s[n] in multiset(t);
    i :| 0 <= i < |t| && t[i] == s[n];
    assert t == t[..i] + [t[i]] + t[i + 1..];
    assert multiset(t[..i] + t[i + 1..]) == multiset(t) - multiset{t[i]};
    assert |s| == |multiset(s)| == |multiset(t)| == |t|;
  }

  /** Folding the same values in another order gives the same result. */
  lemma {:induction false} FoldPermutation<T(!new)>(op: Op<T>, s: seq<T>, t: seq<T>)
    requires Associative(op) && Commutative(op) && s != [] && multiset(s) == multiset(t)
    ensures t != [] && Fold(op, s) == Fold(op, t)
    decreases |s|
  {
    var i := FindLast(s, t);
    if |s| > 1 {
      FoldPermutation(op, s[..|s| - 1], t[..i] + t[i + 1..]);
      FoldMoveLast(op, t, i);
    }
  }

  // ---------------------------------------------------------------- the mesh

  /** The values of column `x`, top to bottom: tile y * width + x holds row y. */
  function Column<T>(data: seq<T>, width: nat, height: nat, x: nat): (s: seq<T>)
    requires |data| == height * width && x < width
    ensures |s| == height
  {
    seq(height, y requires 0 <= y < height => At(data, width, height, x, y))
  }

  function At<T>(data: seq<T>, width: nat, height: nat, x: nat, y: nat): T
    requires |data| == height * width && x < width && y < height
  {
    MulMonotone(y + 1, height, width);
    data[y * width + x]
  }

  /** The fold of every column. */
  function ColumnFolds<T>(op: Op<T>, data: seq<T>, width: nat, height: nat): (s: seq<T>)
    requires |data| == height * width && height > 0
    ensures |s| == width
  {
    seq(width, x requires 0 <= x < width => Fold(op, Column(data, width, height, x)))
  }

  /** Folding two sequences value by value and then along is folding each along first. */
  lemma {:induction false} FoldPairs<T(!new)>(op: Op<T>, s: seq<T>, t: seq<T>, both: seq<T>)
    requires Associative(op) && Commutative(op) && |s| == |t| == |both| && s != []
    requires forall i :: 0 <= i < |s| ==> both[i] == op.apply(s[i], t[i])
    ensures Fold(op, both) == op.apply(Fold(op, s), Fold(op, t))
  {
    var n := |s| - 1;
    if n > 0 {
      FoldPairs(op, s[..n], t[..n], both[..n]);
      Exchange(op, Fold(op, s[..n]), Fold(op, t[..n]), s[n], t[n]);
    }
  }

  lemma {:induction false} Exchange<T(!new)>(op: Op<T>, a: T, b: T, c: T, d: T)
    requires Associative(op) && Commutative(op)
    ensures op.apply(op.apply(a, b), op.apply(c, d)) == op.apply(op.apply(a, c), op.apply(b, d))
  {
  }

  lemma {:induction false} LastRow<T>(data: seq<T>, width: nat, height: nat, x: nat)
    requires |data| == height * width && height > 1 && x < width
    ensures var above := (height - 1) * width;
            && above + x < |data| && |data[..above]| == (height - 1) * width
            && Column(data, width, height, x) == Column(data[..above], width, height - 1, x) + [data[above + x]]
  {
    var above := (height - 1) * width;
    assert |data| == above + width;
    forall y | 0 <= y < height - 1
      ensures At(data, width, height, x, y) == At(data[..above], width, height - 1, x, y) {
      MulMonotone(y + 1, height - 1, width);
    }
  }

  /** The mesh without its last row, and that row. */
  lemma {:induction false} SplitLastRow<T(!new)>(op: Op<T>, data: seq<T>, width: nat, height: nat)
    returns (upper: seq<T>, lower: seq<T>)
    requires |data| == height * width && height > 1 && width > 0
    ensures |upper| == (height - 1) * width && |lower| == width && upper != []
    ensures data == upper + lower
    ensures var before, folds := ColumnFolds(op, upper, width, height - 1), ColumnFolds(op, data, width, height);
            forall x :: 0 <= x < width ==> folds[x] == op.apply(before[x], lower[x])
  {
    var above := (height - 1) * width;
    assert |data| == above + width;
    MulMonotone(1, height - 1, width);
    upper, lower := data[..above], data[above..];
    forall x | 0 <= x < width
      ensures ColumnFolds(op, data, width, height)[x]
           == op.apply(ColumnFolds(op, upper, width, height - 1)[x], lower[x]) {
      LastRow(data, width, height, x);
    }
  }

  /** Columns first and then along the top row is the same as all tiles in order. */
  lemma {:induction false} ColumnsThenRow<T(!new)>(op: Op<T>, data: seq<T>, width: nat, height: nat)
    requires Associative(op) && Commutative(op)
    requires |data| == height * width && height > 0 && width > 0
    ensures data != []
    ensures Fold(op, ColumnFolds(op, data, width, height)) == Fold(op, data)
    decreases height
  {
    if height == 1 {
      assert ColumnFolds(op, data, width, 1) == data;
    } else {
      var upper, lower := SplitLastRow(op, data, width, height);
      FoldPairs(op, ColumnFolds(op, upper, width, height - 1), lower, ColumnFolds(op, data, width, height));
      ColumnsThenRow(op, upper, width, height - 1);
      FoldConcat(op, upper, lower);
    }
  }

  /** The two-phase reduction: whatever way the network merges each column and then the
      top row, tile 0 receives the fold over all tiles. */
  lemma {:induction false} TwoPhases<T(!new)>(op: Op<T>, data: seq<T>, width: nat, height: nat,
                                             columns: seq<Merge<T>>, row: Merge<T>)
    requires Associative(op) && Commutative(op)
    requires |data| == height * width && height > 0 && width > 0 && |columns| == width
    requires forall x :: 0 <= x < width ==> multiset(Values(columns[x])) == multiset(Column(data, width, height, x))
    requires multiset(Values(row)) == multiset(seq(width, x requires 0 <= x < width => Result(op, columns[x])))
    ensures data != [] && Result(op, row) == Fold(op, data)
  {
    var tops := seq(width, x requires 0 <= x < width => Result(op, columns[x]));
    forall x | 0 <= x < width ensures tops[x] == Fold(op, Column(data, width, height, x)) {
      MergeFolds(op, columns[x]);
      FoldPermutation(op, Values(columns[x]), Column(data, width, height, x));
    }
    assert tops == ColumnFolds(op, data, width, height);
    MergeFolds(op, row);
    FoldPermutation(op, Values(row), tops);
    ColumnsThenRow(op, data, width, height);
  }

  // ---------------------------------------------------------------- 32-bit sums and products

  function Add32(a: Word, b: Word): Word {
    (a + b) % TWO32
  }

  function Mul32(a: Word, b: Word): Word {
    a * b % TWO32
  }

  const INT_ADD := Op(Add32)
  const INT_MUL := Op(Mul32)

  /** Tiles lie a megabyte apart in a 32-bit address space. */
  const MAX_TILES := 4096

  lemma {:induction false} MulWraps(a: nat, b: nat)
    ensures (a % TWO32) * b % TWO32 == a * b % TWO32
  {
    ModStep(a, TWO32, b, 0);
  }

  lemma {:induction false} AddWraps(a: nat, b: nat)
    ensures (a % TWO32 + b) % TWO32 == (a + b) % TWO32
  {
    ModStep(a, TWO32, 1, b);
  }

  lemma {:induction false} AddLaws()
    ensures Associative(INT_ADD) && Commutative(INT_ADD)
  {
    forall a: Word, b: Word, c: Word
      ensures INT_ADD.apply(INT_ADD.apply(a, b), c) == INT_ADD.apply(a, INT_ADD.apply(b, c)) {
      AddWraps(a + b, c);
      AddWraps(b + c, a);
    }
    forall a: Word, b: Word ensures INT_ADD.apply(a, b) == INT_ADD.apply(b, a) {
    }
  }

  lemma {:induction false} MulLaws()
    ensures Associative(INT_MUL) && Commutative(INT_MUL)
  {
    forall a: Word, b: Word, c: Word
      ensures INT_MUL.apply(INT_MUL.apply(a, b), c) == INT_MUL.apply(a, INT_MUL.apply(b, c)) {
      MulWraps(a * b, c);
      MulWraps(b * c, a);
      assert a * b * c == b * c * a;
      assert b * c % TWO32 * a == a * (b * c % TWO32);
    }
    forall a: Word, b: Word ensures INT_MUL.apply(a, b) == INT_MUL.apply(b, a) {
      assert a * b == b * a;
    }
  }

  predicate Uniform(s: seq<Word>, u: Word) {
    forall i :: 0 <= i < |s| ==> s[i] == u
  }

  /** The value the sum phases wait for. */
  function ExpectedSum(u: Word, n: nat): Word {
    u * n % TWO32
  }

  lemma {:induction false} OneMoreTerm(u: Word, n: nat)
    ensures Add32(ExpectedSum(u, n), u) == ExpectedSum(u, n + 1)
  {
    AddWraps(u * n, u);
    assert u * n + u == u * (n + 1);
  }

  lemma {:induction false} UniformSum(s: seq<Word>, u: Word)
    requires s != [] && Uniform(s, u)
    ensures Fold(INT_ADD, s) == ExpectedSum(u, |s|)
  {
    var n := |s| - 1;
    if n == 0 {
      assert u * |s| == u;
    } else {
      UniformSum(s[..n], u);
      OneMoreTerm(u, n);
      assert Fold(INT_ADD, s) == Add32(Fold(INT_ADD, s[..n]), u);
    }
  }

  lemma {:induction false} UniformProduct(s: seq<Word>, u: Word)
    requires s != [] && Uniform(s, u)
    ensures Fold(INT_MUL, s) == Digits.Pow(u, |s|) % TWO32
  {
    var n := |s| - 1;
    if n > 0 {
      UniformProduct(s[..n], u);
      MulWraps(Digits.Pow(u, n), u);
    }
  }

  lemma {:induction false} SumOfSums(u: Word, m: nat, n: nat)
    ensures ExpectedSum(ExpectedSum(u, m), n) == u * (m * n) % TWO32
  {
    MulWraps(u * m, n);
    assert u * m * n == u * (m * n);
  }

  lemma {:induction false} NextPower(u: Word, n: nat)
    ensures Digits.Pow(u, n) % TWO32 * u % TWO32 == Digits.Pow(u, n + 1) % TWO32
  {
    MulWraps(Digits.Pow(u, n), u);
  }

  /** The value the product phases wait for. */
  function ExpectedPower(u: Word, n: nat): Word {
    Digits.Pow(u, n) % TWO32
  }

  /** The loop that computes it. */
  method ExpectedProduct(u: Word, n: nat) returns (r: Word)
    requires n > 0
    ensures r == ExpectedPower(u, n)
  {
    r := u;
    assert Digits.Pow(u, 1) == u;
    var i := 0;
    while i < n - 1
      invariant i <= n - 1 && r == Digits.Pow(u, i + 1) % TWO32
    {
      NextPower(u, i + 1);
      r := r * u % TWO32;
      i := i + 1;
    }
  }

  lemma {:induction false} PowWraps(u: nat, n: nat)
    ensures Digits.Pow(u % TWO32, n) % TWO32 == Digits.Pow(u, n) % TWO32
  {
    if n > 0 {
      PowWraps(u, n - 1);
      var p, q := Digits.Pow(u % TWO32, n - 1), Digits.Pow(u, n - 1);
      MulWraps(p, u % TWO32);
      MulWraps(q, u % TWO32);
      MulWraps(u, q);
    }
  }

  lemma {:induction false} PowTwice(u: nat, m: nat, n: nat)
    ensures Digits.Pow(Digits.Pow(u, m), n) == Digits.Pow(u, m * n)
  {
    if n > 0 {
      PowTwice(u, m, n - 1);
      assert m * n == m + m * (n - 1);
      Digits.PowAdd(u, m, m * (n - 1));
    }
  }

  /** A column of equal values, however merged. */
  predicate ColumnOf(u: Word, height: nat, m: Merge<Word>) {
    |Values(m)| == height && Uniform(Values(m), u)
  }

  lemma {:induction false} MergedSum(u: Word, n: nat, m: Merge<Word>)
    requires ColumnOf(u, n, m)
    ensures n > 0 && Result(INT_ADD, m) == ExpectedSum(u, n)
  {
    AddLaws();
    MergeFolds(INT_ADD, m);
    UniformSum(Values(m), u);
  }

  lemma {:induction false} MergedProduct(u: Word, n: nat, m: Merge<Word>)
    requires ColumnOf(u, n, m)
    ensures n > 0 && Result(INT_MUL, m) == Digits.Pow(u, n) % TWO32
  {
    MulLaws();
    MergeFolds(INT_MUL, m);
    UniformProduct(Values(m), u);
  }

  /** With equal values the column sum and then the row sum are what each spin waits for on
      a square mesh; the total is the value times the number of tiles. */
  lemma {:induction false} SumPhases(u: Word, width: nat, height: nat, column: Merge<Word>, row: Merge<Word>)
    requires ColumnOf(u, height, column) && ColumnOf(Result(INT_ADD, column), width, row)
    ensures Result(INT_ADD, row) == u * (height * width) % TWO32
    ensures width == height ==> Result(INT_ADD, column) == ExpectedSum(u, width)
    ensures width == height ==> Result(INT_ADD, row) == ExpectedSum(Result(INT_ADD, column), height)
  {
    MergedSum(u, height, column);
    MergedSum(Result(INT_ADD, column), width, row);
    SumOfSums(u, height, width);
  }

  /** Different numbers of the value the test sums are different words. */
  lemma {:induction false} SumsMeetIff(m: nat, n: nat)
    requires m <= MAX_TILES && n <= MAX_TILES
    ensures ExpectedSum(100, m) == ExpectedSum(100, n) <==> m == n
  {
  }

  /** With equal values the column product is the power of the height, and the row product
      that of the width; the total is the value to the number of tiles. On a square mesh they
      are what the two spins wait for. */
  lemma {:induction false} ProductPhases(u: Word, width: nat, height: nat, column: Merge<Word>, row: Merge<Word>)
    requires ColumnOf(u, height, column) && ColumnOf(Result(INT_MUL, column), width, row)
    ensures Result(INT_MUL, column) == ExpectedPower(u, height)
    ensures Result(INT_MUL, row) == ExpectedPower(Result(INT_MUL, column), width)
    ensures Result(INT_MUL, row) == Digits.Pow(u, height * width) % TWO32
    ensures width == height ==> Result(INT_MUL, column) == ExpectedPower(u, width)
    ensures width == height ==> Result(INT_MUL, row) == ExpectedPower(Result(INT_MUL, column), height)
  {
    MergedProduct(u, height, column);
    MergedProduct(Result(INT_MUL, column), width, row);
    PowWraps(Digits.Pow(u, height), width);
    PowTwice(u, height, width);
  }

  lemma {:induction false} FullWord()
    ensures Digits.Pow(2, 32) == TWO32
  {
    assert Digits.Pow(2, 4) == 16;
    Digits.PowAdd(2, 4, 4);
    Digits.PowAdd(2, 8, 8);
    Digits.PowAdd(2, 16, 16);
  }

  /** Below 32 a power of two fits 32 bits; from 32 on it vanishes. */
  lemma {:induction false} PowerOfTwo(n: nat)
    ensures n < 32 ==> 0 < Digits.Pow(2, n) < TWO32
    ensures n >= 32 ==> Digits.Pow(2, n) % TWO32 == 0
  {
    FullWord();
    if n < 32 {
      Digits.PowAdd(2, n, 32 - n);
      Digits.PowPositive(2, n);
      Digits.PowPositive(2, 32 - n - 1);
      MulMonotone(2, Digits.Pow(2, 32 - n), Digits.Pow(2, n));
    } else {
      Digits.PowAdd(2, 32, n - 32);
      DivModUnique(Digits.Pow(2, n), TWO32, Digits.Pow(2, n - 32), 0);
    }
  }

  lemma {:induction false} PowerOfTwoGrows(m: nat, n: nat)
    requires m < n
    ensures Digits.Pow(2, m) < Digits.Pow(2, n)
  {
    Digits.PowAdd(2, m, n - m);
    Digits.PowPositive(2, m);
    Digits.PowPositive(2, n - m - 1);
    var p, q := Digits.Pow(2, n - m), Digits.Pow(2, m);
    assert p >= 2;
    MulMonotone(2, p, q);
  }

  /** Two powers of two are the same 32-bit word. */
  lemma {:induction false} PowersMeetIff(m: nat, n: nat)
    ensures ExpectedPower(2, m) == ExpectedPower(2, n) <==> m == n || (m >= 32 && n >= 32)
  {
    hide Digits.Pow;
    PowerOfTwo(m);
    PowerOfTwo(n);
    if m < n {
      PowerOfTwoGrows(m, n);
    } else if n < m {
      PowerOfTwoGrows(n, m);
    }
  }
}
