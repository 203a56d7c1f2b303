/** The software-pipelined matrix multiplication kernels.

    Memory is flat and row-major: A is MxN, B is NxP, C is MxP.  The 2xVL, 4xVL
    and 8xVL kernels are one algorithm with a different number of rows held in
    registers; `rows` stands for that number, and a loop over `r` for the
    instructions the source writes out once per row. */
module SpatzMatmul {
  import opened Arith
  import opened Linear
  import opened Rvv

  /** Index of an element in a row-major matrix. */
  function At(row: nat, col: nat, width: nat): nat {
    row * width + col
  }

  lemma AtRowCol(row: nat, col: nat, width: nat)
    requires col < width
    ensures At(row, col, width) / width == row && At(row, col, width) % width == col
  {
    DivModUnique(At(row, col, width), width, row, col);
  }

  /** The first `n` terms of the product of row `i` of A with column `j` of B,
      accumulated from left to right. */
  function Dot<T>(ops: Ops<T>, a: seq<T>, b: seq<T>, N: nat, P: nat, i: nat, j: nat, n: nat): T
    requires n >= 1 && At(i, n - 1, N) < |a| && At(n - 1, j, P) < |b|
  {
    if n == 1 then ops.mul(a[At(i, 0, N)], b[At(0, j, P)])
    else
      assert At(n - 2, j, P) + P == At(n - 1, j, P);
      ops.fma(Dot(ops, a, b, N, P, i, j, n - 1), a[At(i, n - 1, N)], b[At(n - 1, j, P)])
  }

  /** The operands written out: element `k` of the row is a[i * N + k], of the column b[k * P + j]. */
  lemma {:induction false} DotIsChain<T>(ops: Ops<T>, a: seq<T>, b: seq<T>, N: nat, P: nat, i: nat, j: nat, n: nat, row: nat)
    requires n >= 1 && At(i, n - 1, N) < |a| && At(n - 1, j, P) < |b| && row == i * N
    ensures row + n - 1 < |a| && j + (n - 1) * P < |b|
    ensures Dot(ops, a, b, N, P, i, j, n) == Chain(ops, a[row..row + n], Every(b, j, P, n))
  {
    hide Every, Chain;
    var k := n - 1;
    var x, y := a[At(i, k, N)], b[At(k, j, P)];
    assert a[row..row + n] == a[row..row + k] + [x];
    EveryStep(b, j, P, k);
    ChainStep(ops, a[row..row + k], Every(b, j, P, k), x, y);
    if k > 0 {
      assert At(k - 1, j, P) + P == At(k, j, P);
      DotIsChain(ops, a, b, N, P, i, j, k, row);
    }
  }

  /** How many columns of a row of A, and how many rows of B, a kernel reads. */
  function Fetched(N: nat): nat {
    if N % 2 == 0 then N else N + 2
  }

  ghost predicate Mapped<T>(a: seq<T>, b: seq<T>, N: nat, P: nat, i: nat, j: nat) {
    N >= 1 && At(i, Fetched(N) - 1, N) < |a| && At(Fetched(N) - 1, j, P) < |b|
  }

  /** What a kernel leaves in one cell of C.  For an odd N the unrolled loop runs
      past the row: two more products are accumulated. */
  function KernelCell<T>(ops: Ops<T>, a: seq<T>, b: seq<T>, N: nat, P: nat, i: nat, j: nat): T
    requires Mapped(a, b, N, P, i, j)
  {
    if N % 2 == 0 then Dot(ops, a, b, N, P, i, j, N)
    else
      assert At(N + 1, j, P) == At(N, j, P) + P;
      ops.fma(Dot(ops, a, b, N, P, i, j, N + 1), a[At(i, N + 1, N)], b[At(N, j, P)])
  }

  /** Bounds of every element read for one block of rows. */
  ghost predicate BlockMapped<T>(a: seq<T>, b: seq<T>, N: nat, P: nat, m: nat, rows: nat, p: nat, vl: nat) {
    && N >= 1 && rows >= 1 && vl >= 1 && p + vl <= P
    && At(m + rows - 1, Fetched(N) - 1, N) < |a|
    && At(Fetched(N) - 1, p + vl - 1, P) < |b|
  }

  lemma BlockIndex<T>(a: seq<T>, b: seq<T>, N: nat, P: nat, m: nat, rows: nat, p: nat, vl: nat, r: nat, l: nat, n: nat)
    requires BlockMapped(a, b, N, P, m, rows, p, vl) && r < rows && l < vl && n < Fetched(N)
    ensures At(m + r, n, N) < |a| && At(n, p + l, P) < |b|
    ensures At(n, p, P) + vl <= |b|
    ensures Mapped(a, b, N, P, m + r, p + l)
  {
    MulMonotone(m + r, m + rows - 1, N);
    MulMonotone(n, Fetched(N) - 1, P);
  }

  /** `x` is the sum of the first `n` terms of cell (i, j). */
  ghost predicate IsDot<T>(ops: Ops<T>, a: seq<T>, b: seq<T>, N: nat, P: nat, i: nat, j: nat, n: nat, x: T) {
    && n >= 1 && At(i, n - 1, N) < |a| && At(n - 1, j, P) < |b|
    && x == Dot(ops, a, b, N, P, i, j, n)
  }

  /** Every accumulator holds the first `n` terms of its own cell. */
  ghost predicate Accumulated<T>(ops: Ops<T>, a: seq<T>, b: seq<T>, N: nat, P: nat, m: nat, rows: nat,
                                 p: nat, vl: nat, acc: seq<seq<T>>, n: nat) {
    && |acc| == rows
    && (forall r :: 0 <= r < rows ==> |acc[r]| >= vl)
    && forall r, l :: 0 <= r < rows && 0 <= l < vl ==> IsDot(ops, a, b, N, P, m + r, p + l, n, acc[r][l])
  }

  ghost predicate Holds<T>(mem: seq<T>, k: nat, x: T) {
    k < |mem| && mem[k] == x
  }

  /** The scalars of column `n` of A are prefetched. */
  ghost predicate Prefetched<T>(a: seq<T>, N: nat, m: nat, rows: nat, t: seq<T>, n: nat) {
    |t| == rows && forall r :: 0 <= r < rows ==> Holds(a, At(m + r, n, N), t[r])
  }

  /** Row `n` of B is loaded in the first `vl` lanes. */
  ghost predicate Loaded<T>(b: seq<T>, P: nat, p: nat, vl: nat, v: seq<T>, n: nat) {
    |v| >= vl && At(n, p, P) + vl <= |b| && forall l :: 0 <= l < vl ==> v[l] == b[At(n, p, P) + l]
  }

  /** `x` is what the kernel leaves in cell (i, j) of C. */
  ghost predicate IsKernelCell<T>(ops: Ops<T>, a: seq<T>, b: seq<T>, N: nat, P: nat, i: nat, j: nat, x: T) {
    Mapped(a, b, N, P, i, j) && x == KernelCell(ops, a, b, N, P, i, j)
  }

  /** Accumulating one more term in every lane of every row. */
  lemma StepAccumulates<T>(ops: Ops<T>, a: seq<T>, b: seq<T>, N: nat, P: nat, m: nat, rows: nat, p: nat, vl: nat,
                           acc: seq<seq<T>>, t: seq<T>, v: seq<T>, acc': seq<seq<T>>, n: nat)
    requires BlockMapped(a, b, N, P, m, rows, p, vl) && n < Fetched(N)
    requires n > 0 ==> Accumulated(ops, a, b, N, P, m, rows, p, vl, acc, n)
    requires Prefetched(a, N, m, rows, t, n) && Loaded(b, P, p, vl, v, n)
    requires |acc| == |acc'| == rows
    requires forall r :: 0 <= r < rows ==> |acc[r]| >= vl && |acc'[r]| >= vl
    requires forall r, l :: 0 <= r < rows && 0 <= l < vl ==>
      acc'[r][l] == if n == 0 then ops.mul(t[r], v[l]) else ops.fma(acc[r][l], t[r], v[l])
    ensures Accumulated(ops, a, b, N, P, m, rows, p, vl, acc', n + 1)
  {
    forall r, l | 0 <= r < rows && 0 <= l < vl
      ensures IsDot(ops, a, b, N, P, m + r, p + l, n + 1, acc'[r][l])
    {
      BlockIndex(a, b, N, P, m, rows, p, vl, r, l, n);
      assert Holds(a, At(m + r, n, N), t[r]);
      assert v[l] == b[At(n, p, P) + l];
      if n > 0 {
        assert IsDot(ops, a, b, N, P, m + r, p + l, n, acc[r][l]);
      }
    }
  }

  /** Memory accesses are kept track of by the end of the highest one. */
  function Top(x: nat, y: nat): nat {
    if x < y then y else x
  }

  /** The accesses to A end after column `n` of the block's rows, those to B after the
      block's columns of row `n`. */
  ghost predicate ReadUpTo(N: nat, P: nat, m: nat, rows: nat, p: nat, vl: nat, n: nat, topA: nat, topB: nat) {
    rows >= 1 && topA == At(m + rows - 1, n, N) + 1 && topB == At(n, p, P) + vl
  }

  lemma ReadOn(N: nat, P: nat, m: nat, rows: nat, p: nat, vl: nat, n: nat, topA: nat, topB: nat, stepA: nat, stepB: nat)
    requires ReadUpTo(N, P, m, rows, p, vl, n, topA, topB) && ReadUpTo(N, P, m, rows, p, vl, n + 1, stepA, stepB)
    ensures ReadUpTo(N, P, m, rows, p, vl, n + 1, Top(topA, stepA), Top(topB, stepB))
  {
    assert At(n + 1, p, P) == At(n, p, P) + P;
  }

  /** One step for a block of rows: multiply-accumulate the row of B held in `v`
      with the prefetched scalars, fetching the next column of A in their place. */
  method StepBlock<T>(ops: Ops<T>, a: seq<T>, ghost b: seq<T>, N: nat, ghost P: nat, m: nat, rows: nat,
                      ghost p: nat, vl: nat, acc: seq<seq<T>>, t: seq<T>, v: seq<T>, n: nat)
    returns (acc': seq<seq<T>>, t': seq<T>, ghost topA: nat)
    requires BlockMapped(a, b, N, P, m, rows, p, vl) && n + 1 < Fetched(N)
    requires |acc| == rows && forall r :: 0 <= r < rows ==> |acc[r]| == |v|
    requires n > 0 ==> Accumulated(ops, a, b, N, P, m, rows, p, vl, acc, n)
    requires Prefetched(a, N, m, rows, t, n) && Loaded(b, P, p, vl, v, n)
    ensures Accumulated(ops, a, b, N, P, m, rows, p, vl, acc', n + 1)
    ensures Prefetched(a, N, m, rows, t', n + 1)
    ensures forall r :: 0 <= r < rows ==> |acc'[r]| == |v|
    ensures topA == At(m + rows - 1, n + 1, N) + 1
  {
    hide Accumulated;
    acc', t', topA := acc, t, 0;
    var pa := At(m, n + 1, N);
    for r := 0 to rows
      invariant |acc'| == |t'| == rows && pa == At(m + r, n + 1, N)
      invariant topA == if r == 0 then 0 else At(m + r - 1, n + 1, N) + 1
      invariant forall q :: 0 <= q < rows ==> |acc'[q]| == |v|
      invariant forall q :: r <= q < rows ==> acc'[q] == acc[q] && t'[q] == t[q]
      invariant forall q, l :: 0 <= q < r && 0 <= l < vl ==>
        acc'[q][l] == if n == 0 then ops.mul(t[q], v[l]) else ops.fma(acc[q][l], t[q], v[l])
      invariant forall q :: 0 <= q < r ==> Holds(a, At(m + q, n + 1, N), t'[q])
    {
      BlockIndex(a, b, N, P, m, rows, p, vl, r, 0, n + 1);
      var w;
      if n == 0 {
        w := VfmulVf(ops, acc'[r], v, t'[r], vl);
      } else {
        w := VfmaccVf(ops, acc'[r], t'[r], v, vl);
      }
      acc' := acc'[r := w];
      t', topA := t'[r := a[pa]], Top(topA, pa + 1);
      pa := pa + N;
      assert At(m + r, n + 1, N) + N == At(m + (r + 1), n + 1, N);
    }
    StepAccumulates(ops, a, b, N, P, m, rows, p, vl, acc, t, v, acc', n);
  }

  /** Loads row `n` of B at the block's first column and moves the row pointer on. */
  method LoadRow<T>(ghost a: seq<T>, b: seq<T>, ghost N: nat, P: nat, ghost m: nat, ghost rows: nat,
                    ghost p: nat, vl: nat, pb: nat, vd: seq<T>, ghost n: nat)
    returns (v: seq<T>, pb': nat, ghost topB: nat)
    requires BlockMapped(a, b, N, P, m, rows, p, vl) && n < Fetched(N)
    requires vl <= |vd| && pb == At(n, p, P)
    ensures |v| == |vd| && Loaded(b, P, p, vl, v, n) && pb' == At(n + 1, p, P)
    ensures topB == At(n, p, P) + vl
  {
    BlockIndex(a, b, N, P, m, rows, p, vl, 0, 0, n);
    v := Vle(vd, b, pb, vl);
    pb', topB := pb + P, pb + vl;
  }

  /** Fetches the first column of A for a block of rows. */
  method FetchColumn<T>(a: seq<T>, N: nat, m: nat, rows: nat) returns (t: seq<T>, ghost topA: nat)
    requires rows >= 1 && At(m + rows - 1, 0, N) < |a|
    ensures Prefetched(a, N, m, rows, t, 0) && topA == At(m + rows - 1, 0, N) + 1
  {
    t, topA := [], 0;
    var pa := At(m, 0, N);
    for r := 0 to rows
      invariant |t| == r && pa == At(m + r, 0, N)
      invariant topA == if r == 0 then 0 else At(m + r - 1, 0, N) + 1
      invariant forall q :: 0 <= q < r ==> Holds(a, At(m + q, 0, N), t[q])
    {
      MulMonotone(m + r, m + rows - 1, N);
      t, topA := t + [a[pa]], Top(topA, pa + 1);
      pa := pa + N;
      assert At(m + r, 0, N) + N == At(m + (r + 1), 0, N);
    }
  }

  /** One accumulation is missing in every lane: with the scalars `t` of column
      `n` of A and the odd row buffer `vo`, it completes the cell. */
  ghost predicate Pending<T>(ops: Ops<T>, a: seq<T>, b: seq<T>, N: nat, P: nat, m: nat, rows: nat, p: nat, vl: nat,
                             acc: seq<seq<T>>, t: seq<T>, vo: seq<T>) {
    && |acc| == |t| == rows && |vo| >= vl
    && (forall r :: 0 <= r < rows ==> |acc[r]| == |vo|)
    && forall r, l :: 0 <= r < rows && 0 <= l < vl ==>
         IsKernelCell(ops, a, b, N, P, m + r, p + l, ops.fma(acc[r][l], t[r], vo[l]))
  }

  /** Between two rows of B: row `n` is held, the scalars of column `n` are fetched, and
      the first `n` terms are accumulated. */
  ghost predicate Pipeline<T>(ops: Ops<T>, a: seq<T>, b: seq<T>, N: nat, P: nat, m: nat, rows: nat, p: nat, vl: nat,
                              acc: seq<seq<T>>, t: seq<T>, held: seq<T>, n: nat) {
    && |acc| == rows && (forall r :: 0 <= r < rows ==> |acc[r]| == |held|)
    && Prefetched(a, N, m, rows, t, n) && Loaded(b, P, p, vl, held, n)
    && (n > 0 ==> Accumulated(ops, a, b, N, P, m, rows, p, vl, acc, n))
  }

  /** Loads the next row of B into the free buffer, then accumulates the held one. */
  method LoadAndStep<T>(ops: Ops<T>, a: seq<T>, b: seq<T>, N: nat, P: nat, m: nat, rows: nat, ghost p: nat, vl: nat,
                        acc: seq<seq<T>>, t: seq<T>, held: seq<T>, free: seq<T>, pb: nat, n: nat)
    returns (acc': seq<seq<T>>, t': seq<T>, v: seq<T>, pb': nat, ghost topA: nat, ghost topB: nat)
    requires BlockMapped(a, b, N, P, m, rows, p, vl) && n + 1 < Fetched(N)
    requires Pipeline(ops, a, b, N, P, m, rows, p, vl, acc, t, held, n) && |free| == |held| && pb == At(n + 1, p, P)
    ensures Pipeline(ops, a, b, N, P, m, rows, p, vl, acc', t', v, n + 1) && |v| == |held| && pb' == At(n + 2, p, P)
    ensures ReadUpTo(N, P, m, rows, p, vl, n + 1, topA, topB)
  {
    v, pb', topB := LoadRow(a, b, N, P, m, rows, p, vl, pb, free, n + 1);
    acc', t', topA := StepBlock(ops, a, b, N, P, m, rows, p, vl, acc, t, held, n);
  }

  /** Where a turn of the loop starts: at an even column, beyond the last only for odd N. */
  predicate TurnStart(n: nat, N: nat) {
    n % 2 == 0 && (n < N || n == N + 1)
  }

  /** From there both rows loaded in the turn are rows the kernel fetches, unless it leaves
      after the first. */
  lemma TurnFetches(n: nat, N: nat)
    requires TurnStart(n, N) && n < N
    ensures n + 1 < Fetched(N)
    ensures n + 2 != N ==> n + 2 < Fetched(N) && TurnStart(n + 2, N)
    ensures n + 2 == N ==> N % 2 == 0
  {
  }

  /** Loads the first row of B and fetches the first column of A. */
  method StartBlock<T>(ops: Ops<T>, a: seq<T>, b: seq<T>, N: nat, P: nat, m: nat, rows: nat, p: nat, vl: nat, stale: seq<T>)
    returns (acc: seq<seq<T>>, t: seq<T>, ve: seq<T>, pb: nat, ghost topA: nat, ghost topB: nat)
    requires BlockMapped(a, b, N, P, m, rows, p, vl) && vl <= |stale|
    ensures Pipeline(ops, a, b, N, P, m, rows, p, vl, acc, t, ve, 0) && |ve| == |stale| && pb == At(1, p, P)
    ensures ReadUpTo(N, P, m, rows, p, vl, 0, topA, topB)
  {
    BlockIndex(a, b, N, P, m, rows, p, vl, rows - 1, vl - 1, 0);
    ve, pb, topB := LoadRow(a, b, N, P, m, rows, p, vl, p, stale, 0);
    acc := seq(rows, r => stale);
    t, topA := FetchColumn(a, N, m, rows);
  }

  /** One block of rows: the pipelined loop over the inner dimension, with B rows
      double-buffered in `ve` (even) and `vo` (odd), the scalars of A fetched one
      column ahead, and the last accumulation still pending on exit. */
  method AccumulateBlock<T>(ops: Ops<T>, a: seq<T>, b: seq<T>, N: nat, P: nat, m: nat, rows: nat, p: nat, vl: nat,
                            stale: seq<T>)
    returns (acc: seq<seq<T>>, t: seq<T>, vo: seq<T>, ghost topA: nat, ghost topB: nat)
    requires BlockMapped(a, b, N, P, m, rows, p, vl) && vl <= |stale|
    ensures Pending(ops, a, b, N, P, m, rows, p, vl, acc, t, vo) && |vo| == |stale|
    ensures ReadUpTo(N, P, m, rows, p, vl, Fetched(N) - 1, topA, topB)
  {
    hide Pipeline, Loaded, Pending, ReadUpTo;
    var ve, pb;
    acc, t, ve, pb, topA, topB := StartBlock(ops, a, b, N, P, m, rows, p, vl, stale);
    vo := stale;
    ghost var stepA, stepB;
    var n := 0;
    while n < N
      invariant TurnStart(n, N)
      invariant pb == At(n + 1, p, P)
      invariant ReadUpTo(N, P, m, rows, p, vl, n, topA, topB)
      invariant |ve| == |vo| == |stale|
      invariant Pipeline(ops, a, b, N, P, m, rows, p, vl, acc, t, ve, n)
      invariant n > 0 ==> Loaded(b, P, p, vl, vo, n - 1)
    {
      TurnFetches(n, N);
      n := n + 1;
      acc, t, vo, pb, stepA, stepB := LoadAndStep(ops, a, b, N, P, m, rows, p, vl, acc, t, ve, vo, pb, n - 1);
      ReadOn(N, P, m, rows, p, vl, n - 1, topA, topB, stepA, stepB);
      topA, topB := Top(topA, stepA), Top(topB, stepB);
      HeldIsLoaded(ops, a, b, N, P, m, rows, p, vl, acc, t, vo, n);
      n := n + 1;
      if n == N {
        PendingTerm(ops, a, b, N, P, m, rows, p, vl, acc, t, vo, vo, N - 1);
        break;
      }
      acc, t, ve, pb, stepA, stepB := LoadAndStep(ops, a, b, N, P, m, rows, p, vl, acc, t, vo, ve, pb, n - 1);
      ReadOn(N, P, m, rows, p, vl, n - 1, topA, topB, stepA, stepB);
      topA, topB := Top(topA, stepA), Top(topB, stepB);
    }
    if n != N {
      PendingTerm(ops, a, b, N, P, m, rows, p, vl, acc, t, ve, vo, N + 1);
    }
  }

  lemma HeldIsLoaded<T>(ops: Ops<T>, a: seq<T>, b: seq<T>, N: nat, P: nat, m: nat, rows: nat, p: nat, vl: nat,
                        acc: seq<seq<T>>, t: seq<T>, held: seq<T>, n: nat)
    requires Pipeline(ops, a, b, N, P, m, rows, p, vl, acc, t, held, n)
    ensures Loaded(b, P, p, vl, held, n)
  {
  }

  /** What is pending when the loop is left: the last term for even N, the one beyond for odd N,
      of which the row of B is in `vo`. */
  lemma PendingTerm<T>(ops: Ops<T>, a: seq<T>, b: seq<T>, N: nat, P: nat, m: nat, rows: nat, p: nat, vl: nat,
                       acc: seq<seq<T>>, t: seq<T>, held: seq<T>, vo: seq<T>, n: nat)
    requires BlockMapped(a, b, N, P, m, rows, p, vl) && |held| == |vo|
    requires n == (if N % 2 == 0 then N - 1 else N + 1)
    requires Pipeline(ops, a, b, N, P, m, rows, p, vl, acc, t, held, n)
    requires Loaded(b, P, p, vl, vo, if N % 2 == 0 then N - 1 else N)
    ensures Pending(ops, a, b, N, P, m, rows, p, vl, acc, t, vo)
  {
    forall r, l | 0 <= r < rows && 0 <= l < vl
      ensures IsKernelCell(ops, a, b, N, P, m + r, p + l, ops.fma(acc[r][l], t[r], vo[l])) {
      BlockIndex(a, b, N, P, m, rows, p, vl, r, l, 0);
    }
  }

  /** The flat index `k` lies in rows [r0, r1) and columns [c0, c1). */
  ghost predicate InBlock(k: nat, P: nat, r0: nat, r1: nat, c0: nat, c1: nat) {
    P > 0 && r0 <= k / P < r1 && c0 <= k % P < c1
  }

  /** Memory `after` is memory `before` with exactly the cells of the given rows and
      columns of C replaced by what the kernel computes for them. */
  ghost predicate Written<T>(ops: Ops<T>, a: seq<T>, b: seq<T>, N: nat, P: nat, r0: nat, r1: nat, c0: nat, c1: nat,
                             before: seq<T>, after: seq<T>) {
    && |before| == |after|
    && forall k {:trigger after[k]} :: 0 <= k < |after| ==>
         if InBlock(k, P, r0, r1, c0, c1) then IsKernelCell(ops, a, b, N, P, k / P, k % P, after[k])
         else after[k] == before[k]
  }

  lemma WrittenRows<T>(ops: Ops<T>, a: seq<T>, b: seq<T>, N: nat, P: nat, r0: nat, r1: nat, r2: nat, c0: nat, c1: nat,
                       before: seq<T>, mid: seq<T>, after: seq<T>)
    requires r0 <= r1 <= r2
    requires Written(ops, a, b, N, P, r0, r1, c0, c1, before, mid)
    requires Written(ops, a, b, N, P, r1, r2, c0, c1, mid, after)
    ensures Written(ops, a, b, N, P, r0, r2, c0, c1, before, after)
  {
    assert forall k :: 0 <= k < |after| ==> after[k] == mid[k] || InBlock(k, P, r1, r2, c0, c1);
  }

  lemma WrittenColumns<T>(ops: Ops<T>, a: seq<T>, b: seq<T>, N: nat, P: nat, r0: nat, r1: nat, c0: nat, c1: nat, c2: nat,
                          before: seq<T>, mid: seq<T>, after: seq<T>)
    requires c0 <= c1 <= c2
    requires Written(ops, a, b, N, P, r0, r1, c0, c1, before, mid)
    requires Written(ops, a, b, N, P, r0, r1, c1, c2, mid, after)
    ensures Written(ops, a, b, N, P, r0, r1, c0, c2, before, after)
  {
    assert forall k :: 0 <= k < |after| ==> after[k] == mid[k] || InBlock(k, P, r0, r1, c1, c2);
  }

  /** A one-row block of `vl` columns is a stretch of `vl` cells. */
  lemma OneRowBlock(k: nat, P: nat, i: nat, p: nat, vl: nat, pc: nat)
    requires p + vl <= P && pc == At(i, p, P)
    ensures InBlock(k, P, i, i + 1, p, p + vl) <==> pc <= k < pc + vl
    ensures pc <= k < pc + vl ==> k / P == i && k % P == p + (k - pc)
  {
    if pc <= k < pc + vl {
      DivModUnique(k, P, i, p + (k - pc));
    }
  }

  lemma WrittenOneRow<T>(ops: Ops<T>, a: seq<T>, b: seq<T>, N: nat, P: nat, i: nat, p: nat, vl: nat, v: seq<T>,
                         before: seq<T>, after: seq<T>)
    requires |before| == |after| && p + vl <= P && vl <= |v|
    requires forall l :: 0 <= l < vl ==> IsKernelCell(ops, a, b, N, P, i, p + l, v[l])
    requires forall k :: 0 <= k < |after| ==>
      after[k] == if At(i, p, P) <= k < At(i, p, P) + vl then v[k - At(i, p, P)] else before[k]
    ensures Written(ops, a, b, N, P, i, i + 1, p, p + vl, before, after)
  {
    var pc := At(i, p, P);
    forall k | 0 <= k < |after|
      ensures if InBlock(k, P, i, i + 1, p, p + vl) then IsKernelCell(ops, a, b, N, P, k / P, k % P, after[k])
              else after[k] == before[k]
    {
      OneRowBlock(k, P, i, p, vl, pc);
      if pc <= k < pc + vl {
        assert IsKernelCell(ops, a, b, N, P, i, p + (k - pc), v[k - pc]);
      }
    }
  }

  /** The last accumulation of one row, and its store. */
  method StoreRow<T>(ops: Ops<T>, c: array<T>, ghost a: seq<T>, ghost b: seq<T>, ghost N: nat, ghost P: nat, ghost i: nat,
                     ghost p: nat, vl: nat, acc: seq<T>, t: T, vo: seq<T>, pc: nat)
    requires pc == At(i, p, P) && p + vl <= P && pc + vl <= c.Length && vl <= |acc| == |vo|
    requires forall l :: 0 <= l < vl ==> IsKernelCell(ops, a, b, N, P, i, p + l, ops.fma(acc[l], t, vo[l]))
    modifies c
    ensures Written(ops, a, b, N, P, i, i + 1, p, p + vl, old(c[..]), c[..])
  {
    ghost var before := c[..];
    var v := VfmaccVf(ops, acc, t, vo, vl);
    Vse(v, c, pc, vl);
    WrittenOneRow(ops, a, b, N, P, i, p, vl, v, before, c[..]);
  }

  /** The body of the row loop: accumulates one block of rows, then finishes and
      stores the rows one after the other. */
  method ComputeBlock<T>(ops: Ops<T>, c: array<T>, a: seq<T>, b: seq<T>, N: nat, P: nat, m: nat, rows: nat,
                         p: nat, vl: nat, stale: seq<T>)
    returns (ghost topA: nat, ghost topB: nat, ghost topC: nat)
    requires BlockMapped(a, b, N, P, m, rows, p, vl) && vl <= |stale|
    requires At(m + rows - 1, p + vl - 1, P) < c.Length
    modifies c
    ensures Written(ops, a, b, N, P, m, m + rows, p, p + vl, old(c[..]), c[..])
    ensures ReadUpTo(N, P, m, rows, p, vl, Fetched(N) - 1, topA, topB)
    ensures topC == At(m + rows - 1, p, P) + vl
  {
    var acc, t, vo;
    acc, t, vo, topA, topB := AccumulateBlock(ops, a, b, N, P, m, rows, p, vl, stale);
    ghost var start := c[..];
    var pc := At(m, p, P);
    topC := 0;
    for r := 0 to rows
      invariant pc == At(m + r, p, P)
      invariant topC == if r == 0 then 0 else At(m + r - 1, p, P) + vl
      invariant Written(ops, a, b, N, P, m, m + r, p, p + vl, start, c[..])
    {
      MulMonotone(m + r, m + rows - 1, P);
      ghost var mid := c[..];
      StoreRow(ops, c, a, b, N, P, m + r, p, vl, acc[r], t[r], vo, pc);
      topC := Top(topC, pc + vl);
      WrittenRows(ops, a, b, N, P, m, m + r, m + r + 1, p, p + vl, start, mid, c[..]);
      pc := pc + P;
      assert At(m + r, p, P) + P == At(m + (r + 1), p, P);
    }
  }

  /** Where the row loop stops: the first row index reached from `m` in steps of
      `rows` that is not below `mEnd`. */
  function RowsEnd(m: nat, mEnd: nat, rows: nat): (e: nat)
    requires rows >= 1
    ensures e >= m && (m >= mEnd ==> e == m) && (m < mEnd ==> e >= m + rows)
    decreases mEnd - m
  {
    if m >= mEnd then m else RowsEnd(m + rows, mEnd, rows)
  }

  /** Where the accesses of a kernel to A, B and C end. */
  function EndA(N: nat, mStart: nat, mEnd: nat, rows: nat, pStart: nat, pEnd: nat): nat
    requires N >= 1 && rows >= 1
  {
    if mStart < mEnd && pStart < pEnd then At(RowsEnd(mStart, mEnd, rows) - 1, Fetched(N) - 1, N) + 1 else 0
  }

  function EndB(N: nat, P: nat, mStart: nat, mEnd: nat, pStart: nat, pEnd: nat): nat
    requires N >= 1
  {
    if mStart < mEnd && pStart < pEnd then At(Fetched(N) - 1, pEnd - 1, P) + 1 else 0
  }

  function EndC(P: nat, mStart: nat, mEnd: nat, rows: nat, pStart: nat, pEnd: nat): nat
    requires rows >= 1
  {
    if mStart < mEnd && pStart < pEnd then At(RowsEnd(mStart, mEnd, rows) - 1, pEnd - 1, P) + 1 else 0
  }

  /** The memory a kernel touches is there. */
  ghost predicate KernelMapped<T>(a: seq<T>, b: seq<T>, cLength: nat, N: nat, P: nat,
                                  mStart: nat, mEnd: nat, rows: nat, pStart: nat, pEnd: nat) {
    && N >= 1 && rows >= 1 && pEnd <= P
    && EndA(N, mStart, mEnd, rows, pStart, pEnd) <= |a|
    && EndB(N, P, mStart, mEnd, pStart, pEnd) <= |b|
    && EndC(P, mStart, mEnd, rows, pStart, pEnd) <= cLength
  }

  lemma RowsBelowEnd<T>(a: seq<T>, b: seq<T>, cLength: nat, N: nat, P: nat, mStart: nat, mEnd: nat, rows: nat,
                        pStart: nat, pEnd: nat, m: nat, p: nat, vl: nat)
    requires KernelMapped(a, b, cLength, N, P, mStart, mEnd, rows, pStart, pEnd)
    requires mStart <= m < mEnd && RowsEnd(m, mEnd, rows) == RowsEnd(mStart, mEnd, rows)
    requires pStart <= p && 0 < vl && p + vl <= pEnd
    ensures BlockMapped(a, b, N, P, m, rows, p, vl) && At(m + rows - 1, p + vl - 1, P) < cLength
  {
    var e := RowsEnd(mStart, mEnd, rows);
    MulMonotone(m + rows - 1, e - 1, N);
    MulMonotone(m + rows - 1, e - 1, P);
  }

  /** The row loop: one strip of columns, in blocks of rows. */
  method ComputeStrip<T>(ops: Ops<T>, c: array<T>, a: seq<T>, b: seq<T>, mStart: nat, mEnd: nat, N: nat, P: nat,
                         ghost pStart: nat, ghost pEnd: nat, rows: nat, p: nat, vl: nat, stale: seq<T>)
    returns (ghost topA: nat, ghost topB: nat, ghost topC: nat)
    requires KernelMapped(a, b, c.Length, N, P, mStart, mEnd, rows, pStart, pEnd)
    requires pStart <= p && 0 < vl <= |stale| && p + vl <= pEnd
    modifies c
    ensures Written(ops, a, b, N, P, mStart, RowsEnd(mStart, mEnd, rows), p, p + vl, old(c[..]), c[..])
    ensures topA == EndA(N, mStart, mEnd, rows, p, p + vl)
    ensures topB == EndB(N, P, mStart, mEnd, p, p + vl)
    ensures topC == EndC(P, mStart, mEnd, rows, p, p + vl)
  {
    ghost var strip := c[..];
    topA, topB, topC := 0, 0, 0;
    var m := mStart;
    while m < mEnd
      invariant mStart <= m && RowsEnd(m, mEnd, rows) == RowsEnd(mStart, mEnd, rows)
      invariant Written(ops, a, b, N, P, mStart, m, p, p + vl, strip, c[..])
      invariant topA == if m == mStart then 0 else At(m - 1, Fetched(N) - 1, N) + 1
      invariant topB == if m == mStart then 0 else At(Fetched(N) - 1, p, P) + vl
      invariant topC == if m == mStart then 0 else At(m - 1, p, P) + vl
      decreases mEnd - m
    {
      ghost var mid := c[..];
      RowsBelowEnd(a, b, c.Length, N, P, mStart, mEnd, rows, pStart, pEnd, m, p, vl);
      ghost var blockA, blockB, blockC := ComputeBlock(ops, c, a, b, N, P, m, rows, p, vl, stale);
      WrittenRows(ops, a, b, N, P, mStart, m, m + rows, p, p + vl, strip, mid, c[..]);
      if m > mStart {
        MulMonotone(m - 1, m + rows - 1, N);
        MulMonotone(m - 1, m + rows - 1, P);
      }
      topA, topB, topC := Top(topA, blockA), Top(topB, blockB), Top(topC, blockC);
      m := m + rows;
    }
  }

  /** A whole kernel: columns in strips, rows in blocks.  Whatever strips the
      vector unit chooses, the same cells get the same values and the same stretch
      of memory is touched. */
  method FmatmulKernel<T>(ops: Ops<T>, c: array<T>, a: seq<T>, b: seq<T>, mStart: nat, mEnd: nat, N: nat, P: nat,
                          pStart: nat, pEnd: nat, rows: nat, pol: Policy, vlmax: nat, stale: seq<T>)
    returns (ghost topA: nat, ghost topB: nat, ghost topC: nat)
    requires Legal(pol, vlmax) && |stale| == vlmax
    requires KernelMapped(a, b, c.Length, N, P, mStart, mEnd, rows, pStart, pEnd)
    modifies c
    ensures Written(ops, a, b, N, P, mStart, RowsEnd(mStart, mEnd, rows), pStart, if pStart < pEnd then pEnd else pStart,
                    old(c[..]), c[..])
    ensures topA == EndA(N, mStart, mEnd, rows, pStart, pEnd)
    ensures topB == EndB(N, P, mStart, mEnd, pStart, pEnd)
    ensures topC == EndC(P, mStart, mEnd, rows, pStart, pEnd)
  {
    var p := pStart;
    ghost var start := c[..];
    ghost var e := RowsEnd(mStart, mEnd, rows);
    topA, topB, topC := 0, 0, 0;
    while p < pEnd
      invariant pStart <= p && (pStart < pEnd ==> p <= pEnd) && (pStart >= pEnd ==> p == pStart)
      invariant Written(ops, a, b, N, P, mStart, e, pStart, p, start, c[..])
      invariant topA == EndA(N, mStart, mEnd, rows, pStart, p)
      invariant topB == EndB(N, P, mStart, mEnd, pStart, p)
      invariant topC == EndC(P, mStart, mEnd, rows, pStart, p)
      decreases pEnd - p
    {
      StripProgress(pol, vlmax, pEnd - p);
      var gvl := pol(pEnd - p);
      ghost var strip := c[..];
      ghost var stripA, stripB, stripC :=
        ComputeStrip(ops, c, a, b, mStart, mEnd, N, P, pStart, pEnd, rows, p, gvl, stale);
      WrittenColumns(ops, a, b, N, P, mStart, e, pStart, p, p + gvl, start, strip, c[..]);
      topA, topB, topC := Top(topA, stripA), Top(topB, stripB), Top(topC, stripC);
      p := p + gvl;
    }
  }

  // ---- The wrapper, and when it computes a matrix product ----

  /** Rows per block of the variant the wrapper picks for M rows. */
  function BlockRows(M: nat): nat {
    if M <= 4 then 2 else if M <= 8 then 4 else 8
  }

  /** `x` is the chain over row `i` of A and column `j` of B. */
  ghost predicate IsCell<T>(ops: Ops<T>, a: seq<T>, b: seq<T>, N: nat, P: nat, i: nat, j: nat, x: T) {
    && N >= 1 && 0 <= i * N && i * N + N <= |a| && j + (N - 1) * P < |b|
    && x == Chain(ops, a[i * N..i * N + N], Every(b, j, P, N))
  }

  /** `c` starts with the M x P product of A and B, every cell accumulated from left to right. */
  ghost predicate HoldsProduct<T>(ops: Ops<T>, a: seq<T>, b: seq<T>, M: nat, N: nat, P: nat, c: seq<T>) {
    forall i, j :: 0 <= i < M && 0 <= j < P ==>
      At(i, j, P) < |c| && IsCell(ops, a, b, N, P, i, j, c[At(i, j, P)])
  }

  /** The wrapper: picks a variant by M.  `pol(g)` answers `vsetvli` under LMUL g,
      for registers of `lanes` elements. */
  method Fmatmul<T>(ops: Ops<T>, c: array<T>, a: seq<T>, b: seq<T>, M: nat, N: nat, P: nat,
                    pol: nat -> Policy, lanes: nat, registers: seq<T>)
    returns (ghost topA: nat, ghost topB: nat, ghost topC: nat)
    requires forall g :: g in {2, 4, 8} ==> Legal(pol(g), g * lanes)
    requires |registers| >= 8 * lanes
    requires KernelMapped(a, b, c.Length, N, P, 0, M, BlockRows(M), 0, P)
    modifies c
    ensures Written(ops, a, b, N, P, 0, RowsEnd(0, M, BlockRows(M)), 0, P, old(c[..]), c[..])
    ensures N % 2 == 0 ==> HoldsProduct(ops, a, b, M, N, P, c[..])
    ensures M % BlockRows(M) == 0 ==> forall k :: M * P <= k < c.Length ==> c[k] == old(c[k])
    ensures topA == EndA(N, 0, M, BlockRows(M), 0, P)
    ensures topB == EndB(N, P, 0, M, 0, P)
    ensures topC == EndC(P, 0, M, BlockRows(M), 0, P)
  {
    ghost var before := c[..];
    if M <= 4 {
      topA, topB, topC := FmatmulKernel(ops, c, a, b, 0, M, N, P, 0, P, 2, pol(8), 8 * lanes, registers[..8 * lanes]);
      WrapperResult(ops, a, b, M, N, P, 2, before, c[..]);
    } else if M <= 8 {
      topA, topB, topC := FmatmulKernel(ops, c, a, b, 0, M, N, P, 0, P, 4, pol(4), 4 * lanes, registers[..4 * lanes]);
      WrapperResult(ops, a, b, M, N, P, 4, before, c[..]);
    } else {
      topA, topB, topC := FmatmulKernel(ops, c, a, b, 0, M, N, P, 0, P, 8, pol(2), 2 * lanes, registers[..2 * lanes]);
      WrapperResult(ops, a, b, M, N, P, 8, before, c[..]);
    }
  }

  lemma WrapperResult<T>(ops: Ops<T>, a: seq<T>, b: seq<T>, M: nat, N: nat, P: nat, rows: nat, before: seq<T>, after: seq<T>)
    requires KernelMapped(a, b, |after|, N, P, 0, M, rows, 0, P)
    requires Written(ops, a, b, N, P, 0, RowsEnd(0, M, rows), 0, P, before, after)
    ensures N % 2 == 0 ==> HoldsProduct(ops, a, b, M, N, P, after)
    ensures M % rows == 0 ==> forall k :: M * P <= k < |after| ==> after[k] == before[k]
  {
    var e := RowsEnd(0, M, rows);
    RowsEndExact(0, M, rows);
    RowsEndReaches(0, M, rows);
    if N % 2 == 0 {
      WrittenIsProduct(ops, a, b, M, N, P, e, before, after);
    }
    if e == M {
      WrittenStays(ops, a, b, M, N, P, before, after);
    }
  }

  /** The row loop stops at the last row exactly when the block size divides it. */
  lemma {:induction false} RowsEndExact(m: nat, mEnd: nat, rows: nat)
    requires rows >= 1 && m <= mEnd
    ensures RowsEnd(m, mEnd, rows) == mEnd <==> (mEnd - m) % rows == 0
    decreases mEnd - m
  {
    if m < mEnd {
      if m + rows <= mEnd {
        RowsEndExact(m + rows, mEnd, rows);
        SameRemainder(mEnd - m, rows);
      } else {
        DivModUnique(mEnd - m, rows, 0, mEnd - m);
      }
    }
  }

  lemma SameRemainder(d: nat, rows: nat)
    requires 1 <= rows <= d
    ensures d % rows == (d - rows) % rows
  {
    DivModUnique(d, rows, (d - rows) / rows + 1, (d - rows) % rows);
  }

  lemma CellIsChain<T>(ops: Ops<T>, a: seq<T>, b: seq<T>, N: nat, P: nat, i: nat, j: nat)
    requires Mapped(a, b, N, P, i, j) && N % 2 == 0
    ensures IsCell(ops, a, b, N, P, i, j, KernelCell(ops, a, b, N, P, i, j))
  {
    MulMonotone(0, i, N);
    DotIsChain(ops, a, b, N, P, i, j, N, i * N);
  }

  /** However far the blocks reach beyond the last row, the rows of C hold the product. */
  lemma WrittenIsProduct<T>(ops: Ops<T>, a: seq<T>, b: seq<T>, M: nat, N: nat, P: nat, e: nat, before: seq<T>, after: seq<T>)
    requires N >= 1 && N % 2 == 0 && M <= e && (M > 0 && P > 0 ==> At(e - 1, P - 1, P) < |after|)
    requires Written(ops, a, b, N, P, 0, e, 0, P, before, after)
    ensures HoldsProduct(ops, a, b, M, N, P, after)
  {
    forall i: nat, j: nat | i < M && j < P
      ensures At(i, j, P) < |after| && IsCell(ops, a, b, N, P, i, j, after[At(i, j, P)])
    {
      MulMonotone(i, e - 1, P);
      AtRowCol(i, j, P);
      var k := At(i, j, P);
      assert k < |after| && k / P == i && k % P == j;
      assert InBlock(k, P, 0, e, 0, P);
      assert IsKernelCell(ops, a, b, N, P, i, j, after[k]);
      CellIsChain(ops, a, b, N, P, i, j);
    }
  }

  lemma WrittenStays<T>(ops: Ops<T>, a: seq<T>, b: seq<T>, M: nat, N: nat, P: nat, before: seq<T>, after: seq<T>)
    requires Written(ops, a, b, N, P, 0, M, 0, P, before, after)
    ensures forall k :: M * P <= k < |after| ==> after[k] == before[k]
  {
    forall k | M * P <= k < |after| ensures after[k] == before[k] {
      OutsideBlock(k, M, P);
    }
  }

  lemma OutsideBlock(k: nat, M: nat, P: nat)
    requires M * P <= k
    ensures !InBlock(k, P, 0, M, 0, P)
  {
    if P > 0 && k / P < M {
      MulMonotone(k / P + 1, M, P);
    }
  }

  lemma MulLess(x: nat, y: nat, w: nat)
    requires w >= 1
    ensures x * w <= y * w <==> x <= y
  {
    if x <= y {
      MulMonotone(x, y, w);
    } else {
      MulMonotone(y + 1, x, w);
    }
  }

  lemma EndsAre(M: nat, N: nat, P: nat, rows: nat, e: nat)
    requires rows >= 1 && M >= 1 && N >= 1 && P >= 1 && e == RowsEnd(0, M, rows)
    ensures EndA(N, 0, M, rows, 0, P) == (e - 1) * N + Fetched(N)
    ensures EndB(N, P, 0, M, 0, P) == Fetched(N) * P
    ensures EndC(P, 0, M, rows, 0, P) == e * P
  {
    assert (Fetched(N) - 1) * P + P == Fetched(N) * P;
    assert (e - 1) * P + P == e * P;
  }

  lemma EndAFits(M: nat, N: nat, e: nat)
    requires N >= 1 && M >= 1 && e >= M
    ensures (e - 1) * N + Fetched(N) <= M * N <==> N % 2 == 0 && e == M
  {
    assert (M - 1) * N + N == M * N;
    MulMonotone(M - 1, e - 1, N);
    if e > M {
      MulMonotone(M, e - 1, N);
    }
  }

  /** Exact fit.  The accesses of a kernel to B end inside N x P elements if and only if N is
      even, those to C inside M x P if and only if its block size divides M, and those to A
      inside M x N if and only if both hold. */
  lemma FitsExactly(M: nat, N: nat, P: nat, rows: nat)
    requires rows >= 1 && M >= 1 && N >= 1 && P >= 1
    ensures EndB(N, P, 0, M, 0, P) <= N * P <==> N % 2 == 0
    ensures EndC(P, 0, M, rows, 0, P) <= M * P <==> M % rows == 0
    ensures EndA(N, 0, M, rows, 0, P) <= M * N <==> N % 2 == 0 && M % rows == 0
  {
    var e := RowsEnd(0, M, rows);
    EndsAre(M, N, P, rows, e);
    RowsEndExact(0, M, rows);
    RowsEndReaches(0, M, rows);
    MulLess(e, M, P);
    MulLess(Fetched(N), N, P);
    EndAFits(M, N, e);
  }

  lemma {:induction false} RowsEndReaches(m: nat, mEnd: nat, rows: nat)
    requires rows >= 1
    ensures RowsEnd(m, mEnd, rows) >= mEnd
    decreases mEnd - m
  {
    if m < mEnd {
      RowsEndReaches(m + rows, mEnd, rows);
    }
  }

  // ---- Why an odd inner dimension is wrong for every arithmetic that keeps operations apart ----

  /** How many accumulations are nested along the accumulator of a term. */
  function Accumulations(t: Term): nat {
    if t.Fma? then 1 + Accumulations(t.acc) else 0
  }

  lemma {:induction false} DotAccumulations(a: seq<Term>, b: seq<Term>, N: nat, P: nat, i: nat, j: nat, n: nat)
    requires n >= 1 && At(i, n - 1, N) < |a| && At(n - 1, j, P) < |b|
    ensures Accumulations(Dot(TERMS, a, b, N, P, i, j, n)) == n - 1
  {
    if n > 1 {
      assert At(n - 2, j, P) + P == At(n - 1, j, P);
      DotAccumulations(a, b, N, P, i, j, n - 1);
    }
  }

  /** Inside the accumulations of later terms stands the one of element `k` of row `i` and column `j`, and
      innermost the product of their first elements. */
  lemma DotOperands(a: seq<Term>, b: seq<Term>, N: nat, P: nat, i: nat, j: nat, n: nat, k: nat)
    requires k < n && At(i, n - 1, N) < |a| && At(n - 1, j, P) < |b|
    ensures 0 <= i * N && i * N + k < |a| && 0 <= k * P + j < |b|
    ensures var t := Peel(Dot(TERMS, a, b, N, P, i, j, n), n - 1 - k);
            if k == 0 then t == Mul(a[i * N], b[j]) else t.Fma? && t.x == a[i * N + k] && t.y == b[k * P + j]
  {
    var row := i * N;
    MulMonotone(k, n - 1, P);
    DotIsChain(TERMS, a, b, N, P, i, j, n, row);
    ChainOperands(a[row..row + n], Every(b, j, P, n), k);
  }

  /** For odd N the row goes on into the next one, and the last accumulation takes the row of B
      before the last one fetched. */
  lemma OddCell<T>(ops: Ops<T>, a: seq<T>, b: seq<T>, N: nat, P: nat, i: nat, j: nat, row: nat)
    requires Mapped(a, b, N, P, i, j) && N % 2 == 1 && row == i * N
    ensures row + N + 1 < |a| && 0 <= j + N * P < |b|
    ensures KernelCell(ops, a, b, N, P, i, j)
         == ops.fma(Chain(ops, a[row..row + N + 1], Every(b, j, P, N + 1)), a[row + N + 1], b[j + N * P])
  {
    MulMonotone(N, N + 1, P);
    DotIsChain(ops, a, b, N, P, i, j, N + 1, row);
  }

  /** Over the integers the cells are inner products of rows and columns. */
  lemma IntegerProduct(a: seq<int>, b: seq<int>, M: nat, N: nat, P: nat, c: seq<int>, i: nat, j: nat)
    requires HoldsProduct(INTS, a, b, M, N, P, c) && i < M && j < P
    ensures 0 <= i * P + j < |c| && 0 <= i * N && i * N + N <= |a| && (N > 0 ==> j + (N - 1) * P < |b|)
    ensures c[i * P + j] == Inner(a[i * N..i * N + N], Every(b, j, P, N))
  {
    hide Every, Chain, Inner;
    var k := At(i, j, P);
    assert IsCell(INTS, a, b, N, P, i, j, c[k]);
    ChainIsInner(a[i * N..i * N + N], Every(b, j, P, N));
  }

  /** A kernel computes the left-to-right product in a cell if and only if N is even. */
  lemma KernelCellIsDotIff(a: seq<Term>, b: seq<Term>, N: nat, P: nat, i: nat, j: nat)
    requires Mapped(a, b, N, P, i, j)
    ensures N % 2 == 0 ==> KernelCell(TERMS, a, b, N, P, i, j) == Dot(TERMS, a, b, N, P, i, j, N)
    ensures N % 2 == 1 ==> At(N - 1, j, P) < |b| && KernelCell(TERMS, a, b, N, P, i, j) != Dot(TERMS, a, b, N, P, i, j, N)
  {
    if N % 2 == 1 {
      MulMonotone(N - 1, N, P);
      MulMonotone(N, N + 1, P);
      DotAccumulations(a, b, N, P, i, j, N);
      DotAccumulations(a, b, N, P, i, j, N + 1);
    }
  }
}
