/** The column-major matrix-vector kernel: two columns per step, each with its
    own accumulator, rows in strips.  Element (i, k) of A is at k * M + i. */
module SpatzGemv {
  import opened Arith
  import opened Linear
  import opened Rvv

  function Elem(i: nat, k: nat, M: nat): nat {
    k * M + i
  }

  /** Accumulates every second column, starting at column `c`, `n` columns in all. */
  function Alternate<T>(ops: Ops<T>, a: seq<T>, b: seq<T>, M: nat, i: nat, c: nat, n: nat): T
    requires n >= 1 && c + 2 * (n - 1) < |b| && Elem(i, c + 2 * (n - 1), M) < |a|
  {
    var k := c + 2 * (n - 1);
    if n == 1 then ops.mul(b[k], a[Elem(i, k, M)])
    else
      assert Elem(i, k - 2, M) + 2 * M == Elem(i, k, M);
      ops.fma(Alternate(ops, a, b, M, i, c, n - 1), b[k], a[Elem(i, k, M)])
  }

  lemma SecondColumn(M: nat, i: nat, c: nat, n: nat, start: nat, step: nat)
    requires start == c * M + i && step == 2 * M
    ensures start + n * step == Elem(i, c + 2 * n, M)
  {
    assert n * (2 * M) == 2 * n * M;
  }

  /** The places in memory, written out. */
  lemma {:induction false} AlternateIsChain<T>(ops: Ops<T>, a: seq<T>, b: seq<T>, M: nat, i: nat, c: nat, n: nat,
                                               start: nat, step: nat)
    requires n >= 1 && c + 2 * (n - 1) < |b| && Elem(i, c + 2 * (n - 1), M) < |a|
    requires start == c * M + i && step == 2 * M
    ensures start + (n - 1) * step < |a|
    ensures Alternate(ops, a, b, M, i, c, n) == Chain(ops, Every(b, c, 2, n), Every(a, start, step, n))
  {
    hide Every, Chain;
    SecondColumn(M, i, c, n - 1, start, step);
    EveryStep(b, c, 2, n - 1);
    EveryStep(a, start, step, n - 1);
    var x, y := b[c + (n - 1) * 2], a[start + (n - 1) * step];
    ChainStep(ops, Every(b, c, 2, n - 1), Every(a, start, step, n - 1), x, y);
    if n > 1 {
      SecondColumn(M, i, c, n - 2, start, step);
      AlternateIsChain(ops, a, b, M, i, c, n - 1, start, step);
    }
  }

  /** Pairs of columns the kernel visits: an odd last column drags one more along. */
  function Pairs(N: nat): nat {
    (N + 1) / 2
  }

  ghost predicate Mapped<T>(a: seq<T>, b: seq<T>, M: nat, N: nat, i: nat) {
    N >= 1 && 2 * Pairs(N) <= |b| && Elem(i, 2 * Pairs(N) - 1, M) < |a|
  }

  lemma ColumnMapped<T>(a: seq<T>, b: seq<T>, M: nat, N: nat, i: nat, i': nat, k: nat)
    requires Mapped(a, b, M, N, i) && i' <= i && k < 2 * Pairs(N)
    ensures Elem(i', k, M) < |a| && k < |b|
  {
    MulMonotone(k, 2 * Pairs(N) - 1, M);
  }

  /** What the kernel stores for row `i`: the sum of the two chains.  The 64-bit
      kernel adds even + odd, the others odd + even. */
  function KernelRow<T>(ops: Ops<T>, a: seq<T>, b: seq<T>, M: nat, N: nat, i: nat, evenFirst: bool): T
    requires Mapped(a, b, M, N, i)
  {
    ColumnMapped(a, b, M, N, i, i, 2 * Pairs(N) - 2);
    var even := Alternate(ops, a, b, M, i, 0, Pairs(N));
    var odd := Alternate(ops, a, b, M, i, 1, Pairs(N));
    if evenFirst then ops.add(even, odd) else ops.add(odd, even)
  }

  /** The first `vl` lanes hold the chains of rows `row`, `row + 1`, ... */
  ghost predicate Chains<T>(ops: Ops<T>, a: seq<T>, b: seq<T>, M: nat, row: nat, vl: nat, v: seq<T>, c: nat, n: nat) {
    && |v| >= vl
    && forall l :: 0 <= l < vl ==> IsChain(ops, a, b, M, row + l, c, n, v[l])
  }

  ghost predicate IsChain<T>(ops: Ops<T>, a: seq<T>, b: seq<T>, M: nat, i: nat, c: nat, n: nat, x: T) {
    && n >= 1 && c + 2 * (n - 1) < |b| && Elem(i, c + 2 * (n - 1), M) < |a|
    && x == Alternate(ops, a, b, M, i, c, n)
  }

  /** One column: load its strip, then multiply (first pair) or accumulate. */
  method Column<T>(ops: Ops<T>, a: seq<T>, b: seq<T>, M: nat, ghost N: nat, row: nat, vl: nat, pa: nat, k: nat,
                   vd: seq<T>, acc: seq<T>, ghost c: nat, ghost n: nat)
    returns (v: seq<T>, acc': seq<T>, pa': nat)
    requires vl >= 1 && Mapped(a, b, M, N, row + vl - 1) && n < Pairs(N) && c < 2 && k == c + 2 * n
    requires pa == Elem(row, k, M) && vl <= |vd| == |acc|
    requires n > 0 ==> Chains(ops, a, b, M, row, vl, acc, c, n)
    ensures |v| == |vd| && |acc'| == |acc| && pa' == Elem(row, k + 1, M)
    ensures Chains(ops, a, b, M, row, vl, acc', c, n + 1)
  {
    ColumnMapped(a, b, M, N, row + vl - 1, row + vl - 1, k);
    v := Vle(vd, a, pa, vl);
    pa' := pa + M;
    if k < 2 {
      acc' := VfmulVf(ops, acc, v, b[k], vl);
    } else {
      acc' := VfmaccVf(ops, acc, b[k], v, vl);
    }
    forall l | 0 <= l < vl
      ensures IsChain(ops, a, b, M, row + l, c, n + 1, acc'[l])
    {
      assert v[l] == a[Elem(row + l, k, M)];
      assert n > 0 ==> IsChain(ops, a, b, M, row + l, c, n, acc[l]);
    }
  }

  /** What the kernel stores for row `i`, written out: the chain over the even columns and the
      chain over the odd ones, column `k` of row `i` standing at k * M + i. */
  lemma KernelRowIsChains<T>(ops: Ops<T>, a: seq<T>, b: seq<T>, M: nat, N: nat, i: nat, evenFirst: bool, n: nat, step: nat)
    requires Mapped(a, b, M, N, i) && n == (N + 1) / 2 && step == 2 * M
    ensures i + (n - 1) * step < |a| && M + i + (n - 1) * step < |a| && 2 * n <= |b|
    ensures var even, odd := Chain(ops, Every(b, 0, 2, n), Every(a, i, step, n)),
                             Chain(ops, Every(b, 1, 2, n), Every(a, M + i, step, n));
            KernelRow(ops, a, b, M, N, i, evenFirst) == (if evenFirst then ops.add(even, odd) else ops.add(odd, even))
  {
    hide Every, Chain;
    ColumnMapped(a, b, M, N, i, i, 2 * n - 2);
    AlternateIsChain(ops, a, b, M, i, 0, n, i, step);
    AlternateIsChain(ops, a, b, M, i, 1, n, M + i, step);
  }

  /** `x` is what the kernel stores for row `i`. */
  ghost predicate IsKernelRow<T>(ops: Ops<T>, a: seq<T>, b: seq<T>, M: nat, N: nat, i: nat, evenFirst: bool, x: T) {
    Mapped(a, b, M, N, i) && x == KernelRow(ops, a, b, M, N, i, evenFirst)
  }

  /** The kernel: c[0..mCore] receives the product rows, nothing else changes. */
  method Gemv<T>(ops: Ops<T>, a: seq<T>, b: seq<T>, c: array<T>, M: nat, mCore: nat, N: nat, evenFirst: bool,
                 pol: Policy, vlmax: nat, stale: seq<T>)
    requires Legal(pol, vlmax) && |stale| == vlmax
    requires N >= 1 && mCore <= c.Length && (mCore > 0 ==> Mapped(a, b, M, N, mCore - 1))
    modifies c
    ensures forall i :: 0 <= i < mCore ==> IsKernelRow(ops, a, b, M, N, i, evenFirst, c[i])
    ensures forall i :: mCore <= i < c.Length ==> c[i] == old(c[i])
  {
    var avl, row := mCore, 0;
    while true
      invariant row + avl == mCore && (avl > 0 || row == 0)
      invariant forall i :: 0 <= i < row ==> IsKernelRow(ops, a, b, M, N, i, evenFirst, c[i])
      invariant forall i :: row <= i < c.Length ==> c[i] == old(c[i])
      decreases avl
    {
      StripProgress(pol, vlmax, avl);
      var vl := pol(avl);
      if vl > 0 {
        var w := StripOfRows(ops, a, b, M, N, row, vl, evenFirst, stale, mCore);
        Vse(w, c, row, vl);
      }
      avl := avl - vl;
      row := row + vl;
      if avl == 0 {
        break;
      }
    }
  }

  /** One strip: all columns, two at a time, for rows row .. row + vl. */
  method StripOfRows<T>(ops: Ops<T>, a: seq<T>, b: seq<T>, M: nat, N: nat, row: nat, vl: nat, evenFirst: bool,
                        stale: seq<T>, ghost mCore: nat)
    returns (w: seq<T>)
    requires 0 < vl <= |stale| && row + vl <= mCore && Mapped(a, b, M, N, mCore - 1)
    ensures |w| == |stale|
    ensures forall l :: 0 <= l < vl ==> IsKernelRow(ops, a, b, M, N, row + l, evenFirst, w[l])
  {
    ColumnMapped(a, b, M, N, mCore - 1, row + vl - 1, 2 * Pairs(N) - 1);
    var v0, v4, v8, v12 := stale, stale, stale, stale;
    var col, pa := 0, row;
    while col < N
      invariant col % 2 == 0 && col <= 2 * Pairs(N) && pa == Elem(row, col, M)
      invariant |v0| == |v4| == |v8| == |v12| == |stale|
      invariant col > 0 ==> Chains(ops, a, b, M, row, vl, v4, 0, col / 2) && Chains(ops, a, b, M, row, vl, v12, 1, col / 2)
      decreases 2 * Pairs(N) - col
    {
      v0, v4, pa := Column(ops, a, b, M, N, row, vl, pa, col, v0, v4, 0, col / 2);
      v8, v12, pa := Column(ops, a, b, M, N, row, vl, pa, col + 1, v8, v12, 1, col / 2);
      col := col + 2;
    }
    if evenFirst {
      w := VfaddVv(ops, v4, v4, v12, vl);
    } else {
      w := VfaddVv(ops, v12, v12, v4, vl);
    }
    StripRows(ops, a, b, M, N, row, vl, evenFirst, v4, v12, w, mCore);
  }

  /** The sum of both chains in every lane. */
  lemma StripRows<T>(ops: Ops<T>, a: seq<T>, b: seq<T>, M: nat, N: nat, row: nat, vl: nat, evenFirst: bool,
                     even: seq<T>, odd: seq<T>, w: seq<T>, mCore: nat)
    requires vl <= |even| == |odd| == |w| && 0 < row + vl <= mCore && Mapped(a, b, M, N, mCore - 1) && N >= 1
    requires Chains(ops, a, b, M, row, vl, even, 0, Pairs(N)) && Chains(ops, a, b, M, row, vl, odd, 1, Pairs(N))
    requires forall l :: 0 <= l < vl ==> w[l] == if evenFirst then ops.add(even[l], odd[l]) else ops.add(odd[l], even[l])
    ensures forall l :: 0 <= l < vl ==> IsKernelRow(ops, a, b, M, N, row + l, evenFirst, w[l])
  {
    forall l | 0 <= l < vl
      ensures IsKernelRow(ops, a, b, M, N, row + l, evenFirst, w[l])
    {
      ColumnMapped(a, b, M, N, mCore - 1, row + l, 2 * Pairs(N) - 1);
      assert IsChain(ops, a, b, M, row + l, 0, Pairs(N), even[l]);
      assert IsChain(ops, a, b, M, row + l, 1, Pairs(N), odd[l]);
    }
  }

  // ---- The product A * b in a commutative ring ----

  /** Row `i` of A times b. */
  function RowTimes(a: seq<int>, b: seq<int>, M: nat, i: nat, N: nat): int
    requires N <= |b| && (N > 0 ==> Elem(i, N - 1, M) < |a|)
  {
    if N == 0 then 0
    else
      assert N >= 2 ==> Elem(i, N - 2, M) + M == Elem(i, N - 1, M);
      RowTimes(a, b, M, i, N - 1) + b[N - 1] * a[Elem(i, N - 1, M)]
  }

  lemma {:induction false} RowIsInner(a: seq<int>, b: seq<int>, M: nat, i: nat, N: nat)
    requires N <= |b| && (N > 0 ==> Elem(i, N - 1, M) < |a|)
    ensures N > 0 ==> i + (N - 1) * M < |a|
    ensures RowTimes(a, b, M, i, N) == Inner(Every(a, i, M, N), b[..N])
  {
    hide Every, Inner;
    if N == 0 {
      NoRow(a, i, M);
    } else {
      var k := N - 1;
      assert k > 0 ==> Elem(i, k - 1, M) + M == Elem(i, k, M);
      RowIsInner(a, b, M, i, k);
      RowStep(a, b, M, i, k, Every(a, i, M, k), Elem(i, k, M));
    }
  }

  lemma NoRow(a: seq<int>, i: nat, M: nat)
    ensures Inner(Every(a, i, M, 0), []) == 0
  {
  }

  lemma RowStep(a: seq<int>, b: seq<int>, M: nat, i: nat, k: nat, row: seq<int>, place: nat)
    requires k < |b| && place == k * M + i < |a| && (k > 0 ==> i + (k - 1) * M < |a|)
    requires row == Every(a, i, M, k)
    ensures i + k * M == place
    ensures Inner(Every(a, i, M, k + 1), b[..k + 1]) == Inner(row, b[..k]) + a[place] * b[k]
  {
    hide Every, Inner;
    EveryStep(a, i, M, k);
    assert b[..k + 1] == b[..k] + [b[k]];
    InnerStep(row, b[..k], a[place], b[k]);
  }

  lemma {:induction false} ChainsAddUp(a: seq<int>, b: seq<int>, M: nat, i: nat, n: nat)
    requires n >= 1 && 2 * n <= |b| && Elem(i, 2 * n - 1, M) < |a|
    ensures Elem(i, 2 * n - 2, M) < |a|
    ensures Alternate(INTS, a, b, M, i, 0, n) + Alternate(INTS, a, b, M, i, 1, n) == RowTimes(a, b, M, i, 2 * n)
  {
    assert Elem(i, 2 * n - 2, M) + M == Elem(i, 2 * n - 1, M);
    if n > 1 {
      assert Elem(i, 2 * n - 3, M) + 2 * M == Elem(i, 2 * n - 1, M);
      ChainsAddUp(a, b, M, i, n - 1);
    }
    assert RowTimes(a, b, M, i, 2 * n) == RowTimes(a, b, M, i, 2 * n - 1) + b[2 * n - 1] * a[Elem(i, 2 * n - 1, M)];
    assert RowTimes(a, b, M, i, 2 * n - 1) == RowTimes(a, b, M, i, 2 * n - 2) + b[2 * n - 2] * a[Elem(i, 2 * n - 2, M)];
  }

  /** In a ring the kernel computes A * b, plus, for an odd N, the column after the last. */
  lemma KernelRowIsProduct(a: seq<int>, b: seq<int>, M: nat, N: nat, i: nat, evenFirst: bool)
    requires Mapped(a, b, M, N, i)
    ensures Elem(i, N - 1, M) < |a|
    ensures N % 2 == 0 ==> KernelRow(INTS, a, b, M, N, i, evenFirst) == RowTimes(a, b, M, i, N)
    ensures N % 2 == 1 ==> Elem(i, N, M) < |a|
    ensures N % 2 == 1 ==>
      KernelRow(INTS, a, b, M, N, i, evenFirst) == RowTimes(a, b, M, i, N) + b[N] * a[Elem(i, N, M)]
  {
    ColumnMapped(a, b, M, N, i, i, N - 1);
    ChainsAddUp(a, b, M, i, Pairs(N));
  }

  function Ones(n: nat): (z: seq<int>)
    ensures |z| == n && forall i :: 0 <= i < n ==> z[i] == 1
  {
    seq(n, i => 1)
  }

  /** Row `i` is the product for all matrices and vectors if and only if N is even. */
  lemma GemvIsProductIff(M: nat, N: nat, i: nat, evenFirst: bool)
    requires N >= 1
    ensures N % 2 == 0 <==>
      forall a: seq<int>, b: seq<int> :: Mapped(a, b, M, N, i) ==>
        Elem(i, N - 1, M) < |a| && KernelRow(INTS, a, b, M, N, i, evenFirst) == RowTimes(a, b, M, i, N)
  {
    if N % 2 == 0 {
      forall a: seq<int>, b: seq<int> | Mapped(a, b, M, N, i)
        ensures Elem(i, N - 1, M) < |a| && KernelRow(INTS, a, b, M, N, i, evenFirst) == RowTimes(a, b, M, i, N)
      {
        KernelRowIsProduct(a, b, M, N, i, evenFirst);
      }
    } else {
      var a, b := Ones(Elem(i, N, M) + 1), Ones(N + 1);
      assert Mapped(a, b, M, N, i);
      KernelRowIsProduct(a, b, M, N, i, evenFirst);
    }
  }

  /** The kernel on integers: every row of the result is the product. */
  method GemvProduct(a: seq<int>, b: seq<int>, c: array<int>, M: nat, mCore: nat, N: nat, evenFirst: bool,
                     pol: Policy, vlmax: nat, stale: seq<int>)
    requires Legal(pol, vlmax) && |stale| == vlmax
    requires N >= 2 && N % 2 == 0 && mCore <= M && M <= c.Length && |a| == M * N && |b| == N
    modifies c
    ensures forall i :: 0 <= i < mCore ==> i + (N - 1) * M < |a| && c[i] == Inner(Every(a, i, M, N), b)
    ensures forall i :: mCore <= i < c.Length ==> c[i] == old(c[i])
  {
    assert Elem(M, N - 1, M) == M * N;
    Gemv(INTS, a, b, c, M, mCore, N, evenFirst, pol, vlmax, stale);
    forall i | 0 <= i < mCore
      ensures i + (N - 1) * M < |a| && c[i] == Inner(Every(a, i, M, N), b)
    {
      assert IsKernelRow(INTS, a, b, M, N, i, evenFirst, c[i]);
      KernelRowIsProduct(a, b, M, N, i, evenFirst);
      RowIsInner(a, b, M, i, N);
      assert b[..N] == b;
    }
  }
}
