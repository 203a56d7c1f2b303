/** The FP16 transposed matrix-vector task, dst = alpha * mat^T * x + beta * y, over
    the integers.  `value` decodes the 16-bit pattern of a scalar: the code compares
    patterns, not values. */
module GemvTrans {
  import opened Arith
  import opened Linear
  import opened Rvv

  const ZERO_BITS: nat := 0x0000
  const ONE_BITS: nat := 0x3C00

  ghost predicate Decodes(value: nat -> int) {
    value(0x0000) == 0 && value(0x3C00) == 1
  }

  /** Fills a vector: one register is set up for the first strip and stored in every strip. */
  method VectorSetAll(vec: array<int>, val: int, len: nat, pol: Policy, vlmax: nat, stale: seq<int>)
    requires Legal(pol, vlmax) && |stale| == vlmax && len <= vec.Length
    modifies vec
    ensures forall k :: 0 <= k < vec.Length ==> vec[k] == if k < len then val else old(vec[k])
  {
    StripProgress(pol, vlmax, len);
    var v0 := seq(pol(len), l => val) + stale[pol(len)..];
    var avl, at := len, 0;
    while avl > 0
      invariant at + avl == len && avl >= 0 && pol(avl) <= pol(len)
      invariant forall k :: 0 <= k < vec.Length ==> vec[k] == if k < at then val else old(vec[k])
    {
      StripProgress(pol, vlmax, avl);
      StripNeverGrows(pol, vlmax, avl);
      var vl := pol(avl);
      Vse(v0, vec, at, vl);
      at := at + vl;
      avl := avl - vl;
    }
  }

  /** Copies a vector; source and destination may be the same. */
  method VectorMemcpy(src: array<int>, dst: array<int>, len: nat, pol: Policy, vlmax: nat, stale: seq<int>)
    requires Legal(pol, vlmax) && |stale| == vlmax && len <= src.Length && len <= dst.Length
    modifies dst
    ensures forall k :: 0 <= k < dst.Length ==> dst[k] == if k < len then old(src[k]) else old(dst[k])
  {
    var avl, at := len, 0;
    while avl > 0
      invariant at + avl == len && avl >= 0
      invariant forall k :: at <= k < src.Length ==> src[k] == old(src[k])
      invariant forall k :: 0 <= k < dst.Length ==> dst[k] == if k < at then old(src[k]) else old(dst[k])
    {
      StripProgress(pol, vlmax, avl);
      var vl := pol(avl);
      var v0 := Vle(stale, src[..], at, vl);
      Vse(v0, dst, at, vl);
      at := at + vl;
      avl := avl - vl;
    }
  }

  /** Scales a vector; source and destination may be the same. */
  method VectorScale(src: array<int>, val: int, dst: array<int>, len: nat, pol: Policy, vlmax: nat, stale: seq<int>)
    requires Legal(pol, vlmax) && |stale| == vlmax && len <= src.Length && len <= dst.Length
    modifies dst
    ensures forall k :: 0 <= k < dst.Length ==> dst[k] == if k < len then val * old(src[k]) else old(dst[k])
  {
    var avl, at := len, 0;
    while avl > 0
      invariant at + avl == len && avl >= 0
      invariant forall k :: at <= k < src.Length ==> src[k] == old(src[k])
      invariant forall k :: 0 <= k < dst.Length ==> dst[k] == if k < at then val * old(src[k]) else old(dst[k])
    {
      StripProgress(pol, vlmax, avl);
      var vl := pol(avl);
      var v0 := Vle(stale, src[..], at, vl);
      var v8 := VfmulVf(INTS, stale, v0, val, vl);
      Vse(v8, dst, at, vl);
      at := at + vl;
      avl := avl - vl;
    }
  }

  /** Column `col` of the M x N matrix times x. */
  function ColumnTimes(mat: seq<int>, x: seq<int>, N: nat, col: nat, M: nat): int
    requires M <= |x| && (M > 0 ==> (M - 1) * N + col < |mat|)
  {
    Inner(x[..M], Every(mat, col, N, M))
  }

  lemma ColumnStep(mat: seq<int>, x: seq<int>, N: nat, col: nat, M: nat)
    requires M < |x| && M * N + col < |mat|
    ensures M > 0 ==> (M - 1) * N + col < |mat|
    ensures ColumnTimes(mat, x, N, col, M + 1) == ColumnTimes(mat, x, N, col, M) + x[M] * mat[M * N + col]
  {
    assert M > 0 ==> (M - 1) * N + N == M * N;
    ColumnStepAt(mat, x, N, col, M, Every(mat, col, N, M), M * N + col);
  }

  lemma ColumnStepAt(mat: seq<int>, x: seq<int>, N: nat, col: nat, M: nat, column: seq<int>, place: nat)
    requires M < |x| && place == col + M * N < |mat| && (M > 0 ==> col + (M - 1) * N < |mat|)
    requires column == Every(mat, col, N, M)
    ensures Inner(x[..M + 1], Every(mat, col, N, M + 1)) == Inner(x[..M], column) + x[M] * mat[place]
  {
    hide Every, Inner;
    EveryStep(mat, col, N, M);
    assert x[..M + 1] == x[..M] + [x[M]];
    InnerStep(x[..M], column, x[M], mat[place]);
  }

  /** Where the strip containing element `j` starts. */
  function StripStart(pol: Policy, at: nat, avl: nat, j: nat): (start: nat)
    requires at <= j < at + avl
    requires Advances(pol)
    ensures at <= start <= j
    decreases avl
  {
    if j < at + pol(avl) then at else StripStart(pol, at + pol(avl), avl - pol(avl), j)
  }

  /** What the task leaves in dst[j].  The row pointer is set back to the start of
      each row in every strip, so a strip reads the row's first elements. */
  function Result(mat: seq<int>, x: seq<int>, M: nat, N: nat, alpha: int, beta: int, y: int, pol: Policy, j: nat): int
    requires j < N && M <= |x| && M * N <= |mat|
    requires Advances(pol)
  {
    var lane := j - StripStart(pol, 0, N, j);
    LaneMapped(M, N, lane);
    alpha * ColumnTimes(mat, x, N, lane, M) + beta * y
  }

  /** What dst[j] should be. */
  function Transposed(mat: seq<int>, x: seq<int>, M: nat, N: nat, alpha: int, beta: int, y: int, j: nat): int
    requires j < N && M <= |x| && M * N <= |mat|
  {
    LaneMapped(M, N, j);
    alpha * ColumnTimes(mat, x, N, j, M) + beta * y
  }

  lemma LaneMapped(M: nat, N: nat, lane: nat)
    requires lane < N
    ensures M > 0 ==> (M - 1) * N + lane < M * N
  {
  }

  /** One strip of the second phase: accumulate all rows into `v0`. */
  method AccumulateRows(mat: seq<int>, x: seq<int>, M: nat, N: nat, vl: nat, stale: seq<int>) returns (v0: seq<int>)
    requires M <= |x| && M * N <= |mat| && vl <= N && vl <= |stale|
    ensures |v0| == |stale|
    ensures forall l :: 0 <= l < vl ==> IsColumn(mat, x, N, l, M, v0[l])
  {
    v0 := seq(|stale|, l => 0);
    var v8 := stale;
    var m := 0;
    while m < M
      invariant m <= M && |v0| == |v8| == |stale|
      invariant forall l :: 0 <= l < vl ==> IsColumn(mat, x, N, l, m, v0[l])
    {
      MulMonotone(m + 1, M, N);
      var row := m * N;
      var elem := x[m];
      v8 := Vle(v8, mat, row, vl);
      ghost var before := v0;
      v0 := VfmaccVf(INTS, v0, elem, v8, vl);
      forall l | 0 <= l < vl
        ensures IsColumn(mat, x, N, l, m + 1, v0[l])
      {
        assert IsColumn(mat, x, N, l, m, before[l]);
        assert v8[l] == mat[m * N + l];
        ColumnStep(mat, x, N, l, m);
      }
      m := m + 1;
    }
  }

  ghost predicate IsColumn(mat: seq<int>, x: seq<int>, N: nat, col: nat, M: nat, v: int) {
    && M <= |x| && (M > 0 ==> (M - 1) * N + col < |mat|)
    && v == ColumnTimes(mat, x, N, col, M)
  }

  /** `v` is what the task leaves in dst[j]. */
  ghost predicate IsResult(mat: seq<int>, x: seq<int>, M: nat, N: nat, alpha: int, beta: int, y: int,
                           pol: Policy, j: nat, v: int) {
    && j < N && M <= |x| && M * N <= |mat|
    && Advances(pol)
    && v == Result(mat, x, M, N, alpha, beta, y, pol, j)
  }

  /** First phase: dst = beta * y, by the branch that fits the pattern of beta. */
  method ScaleInto(vecY: array<int>, betaBits: nat, value: nat -> int, dst: array<int>, N: nat,
                   pol: Policy, vlmax: nat, stale: seq<int>)
    requires Legal(pol, vlmax) && |stale| == vlmax && Decodes(value)
    requires N <= vecY.Length && N <= dst.Length
    modifies dst
    ensures forall k :: 0 <= k < dst.Length ==>
      dst[k] == if k < N then value(betaBits) * old(vecY[k]) else old(dst[k])
  {
    if betaBits == ZERO_BITS {
      VectorSetAll(dst, 0, N, pol, vlmax, stale);
    } else if betaBits == ONE_BITS {
      VectorMemcpy(vecY, dst, N, pol, vlmax, stale);
    } else {
      VectorScale(vecY, value(betaBits), dst, N, pol, vlmax, stale);
    }
  }

  /** `after` is `before` plus alpha times one column product. */
  ghost predicate Adds(mat: seq<int>, x: seq<int>, N: nat, col: nat, M: nat, alpha: int, before: int, after: int) {
    && M <= |x| && (M > 0 ==> (M - 1) * N + col < |mat|)
    && after == before + alpha * ColumnTimes(mat, x, N, col, M)
  }

  /** One strip of the second phase. */
  method AddStrip(mat: seq<int>, x: seq<int>, alpha: int, dst: array<int>, M: nat, N: nat, at: nat, vl: nat, stale: seq<int>)
    requires M <= |x| && M * N <= |mat| && vl <= |stale| && at + vl <= N <= dst.Length
    modifies dst
    ensures forall j :: 0 <= j < dst.Length ==>
      if at <= j < at + vl then Adds(mat, x, N, j - at, M, alpha, old(dst[j]), dst[j]) else dst[j] == old(dst[j])
  {
    var v24 := Vle(stale, dst[..], at, vl);
    var sums := AccumulateRows(mat, x, M, N, vl, stale);
    var v0 := VfmulVf(INTS, sums, sums, alpha, vl);
    v0 := VfaddVv(INTS, v0, v24, v0, vl);
    Vse(v0, dst, at, vl);
    forall j | at <= j < at + vl
      ensures Adds(mat, x, N, j - at, M, alpha, old(dst[j]), dst[j])
    {
      assert IsColumn(mat, x, N, j - at, M, sums[j - at]);
    }
  }

  /** The strips from `at` on are those of the whole vector. */
  ghost predicate SameStrips(pol: Policy, N: nat, at: nat, avl: nat)
    requires Advances(pol) && at + avl == N
  {
    forall j :: at <= j < N ==> StripStart(pol, 0, N, j) == StripStart(pol, at, avl, j)
  }

  lemma NextStrips(pol: Policy, N: nat, at: nat, avl: nat)
    requires Advances(pol) && at + avl == N && avl > 0 && SameStrips(pol, N, at, avl)
    ensures pol(avl) <= avl && SameStrips(pol, N, at + pol(avl), avl - pol(avl))
  {
    forall j | at + pol(avl) <= j < N
      ensures StripStart(pol, 0, N, j) == StripStart(pol, at + pol(avl), avl - pol(avl), j) {
      assert StripStart(pol, 0, N, j) == StripStart(pol, at, avl, j);
    }
  }

  /** What a strip adds is the result, for the rows start where the strip does. */
  lemma AddsIsResult(mat: seq<int>, x: seq<int>, M: nat, N: nat, alpha: int, y: int, pol: Policy, at: nat, avl: nat, j: nat,
                     v: int)
    requires Advances(pol) && at + avl == N && at <= j < at + pol(avl) && avl > 0
    requires M <= |x| && M * N <= |mat| && SameStrips(pol, N, at, avl) && Adds(mat, x, N, j - at, M, alpha, y, v)
    ensures IsResult(mat, x, M, N, alpha, 1, y, pol, j, v)
  {
    assert StripStart(pol, 0, N, j) == StripStart(pol, at, avl, j) == at;
  }

  /** Second phase: adds alpha times the accumulated rows, strip by strip. */
  method AddProduct(mat: seq<int>, vecX: seq<int>, alpha: int, dst: array<int>, M: nat, N: nat,
                    pol: Policy, vlmax: nat, stale: seq<int>)
    requires Legal(pol, vlmax) && |stale| == vlmax && Advances(pol)
    requires M <= |vecX| && M * N <= |mat| && N <= dst.Length
    modifies dst
    ensures forall j :: 0 <= j < N ==> IsResult(mat, vecX, M, N, alpha, 1, old(dst[j]), pol, j, dst[j])
    ensures forall j :: N <= j < dst.Length ==> dst[j] == old(dst[j])
  {
    hide StripStart, Result, ColumnTimes;
    ghost var start := dst[..];
    var avl, at := N, 0;
    while avl > 0
      invariant at + avl == N && avl >= 0
      invariant forall j :: at <= j < dst.Length ==> dst[j] == start[j]
      invariant SameStrips(pol, N, at, avl)
      invariant forall j :: 0 <= j < at ==> IsResult(mat, vecX, M, N, alpha, 1, start[j], pol, j, dst[j])
    {
      StripProgress(pol, vlmax, avl);
      var vl := pol(avl);
      AddStrip(mat, vecX, alpha, dst, M, N, at, vl, stale);
      forall j | at <= j < at + vl
        ensures IsResult(mat, vecX, M, N, alpha, 1, start[j], pol, j, dst[j])
      {
        AddsIsResult(mat, vecX, M, N, alpha, start[j], pol, at, avl, j, dst[j]);
      }
      NextStrips(pol, N, at, avl);
      at := at + vl;
      avl := avl - vl;
    }
  }

  /** With one strip, row `m` gives its own element at `j`. */
  lemma OneStripResult(mat: seq<int>, x: seq<int>, M: nat, N: nat, alpha: int, beta: int, y: int, pol: Policy, j: nat)
    requires j < N && M <= |x| && M * N <= |mat| && Advances(pol) && pol(N) == N
    ensures M > 0 ==> j + (M - 1) * N < |mat|
    ensures Result(mat, x, M, N, alpha, beta, y, pol, j) == alpha * Inner(x[..M], Every(mat, j, N, M)) + beta * y
  {
    hide Every, Inner;
    LaneMapped(M, N, j);
    assert StripStart(pol, 0, N, j) == 0;
  }

  /** The task.  `vecY` and `dst` may be the same vector. */
  method LinalgGemvTrans(mat: seq<int>, vecX: seq<int>, vecY: array<int>, alphaBits: nat, betaBits: nat, value: nat -> int,
                         dst: array<int>, M: nat, N: nat, pol: Policy, vlmax: nat, stale: seq<int>)
    requires Legal(pol, vlmax) && |stale| == vlmax && Decodes(value)
    requires M <= |vecX| && M * N <= |mat| && N <= vecY.Length && N <= dst.Length
    modifies dst
    ensures forall j :: 0 <= j < N ==>
      IsResult(mat, vecX, M, N, value(alphaBits), value(betaBits), old(vecY[j]), pol, j, dst[j])
    ensures N <= vlmax ==> forall j :: 0 <= j < N ==>
      && (M > 0 ==> j + (M - 1) * N < |mat|)
      && dst[j] == value(alphaBits) * Inner(vecX[..M], Every(mat, j, N, M)) + value(betaBits) * old(vecY[j])
    ensures forall j :: N <= j < dst.Length ==> dst[j] == old(dst[j])
  {
    hide Every, Inner, ColumnTimes, StripStart;
    PolicyAdvances(pol, vlmax);
    ScaleInto(vecY, betaBits, value, dst, N, pol, vlmax, stale);
    ghost var scaled := dst[..];
    assert forall k :: 0 <= k < N ==> scaled[k] == value(betaBits) * old(vecY[k]);
    if alphaBits != ZERO_BITS {
      AddProduct(mat, vecX, value(alphaBits), dst, M, N, pol, vlmax, stale);
    }
    forall j | 0 <= j < N
      ensures IsResult(mat, vecX, M, N, value(alphaBits), value(betaBits), old(vecY[j]), pol, j, dst[j])
    {
      assert alphaBits != ZERO_BITS ==> IsResult(mat, vecX, M, N, value(alphaBits), 1, scaled[j], pol, j, dst[j]);
    }
    if N <= vlmax {
      assert LegalVl(N, pol(N), vlmax);
      forall j | 0 <= j < N
        ensures (M > 0 ==> j + (M - 1) * N < |mat|)
          && dst[j] == value(alphaBits) * Inner(vecX[..M], Every(mat, j, N, M)) + value(betaBits) * old(vecY[j])
      {
        OneStripResult(mat, vecX, M, N, value(alphaBits), value(betaBits), old(vecY[j]), pol, j);
      }
    }
  }

  // ---- When the result is the transposed product ----

  function Impulse(n: nat, at: nat): (z: seq<int>)
    ensures |z| == n && forall i :: 0 <= i < n ==> z[i] == if i == at then 1 else 0
  {
    seq(n, i => if i == at then 1 else 0)
  }

  lemma ImpulseColumn(M: nat, N: nat, col: nat)
    requires M > 0 && col < N
    ensures (M - 1) * N + col < M * N
    ensures ColumnTimes(Impulse(M * N, 0), Impulse(M, 0), N, col, M) == if col == 0 then 1 else 0
  {
    LaneMapped(M, N, col);
    var x, column := Impulse(M, 0), Every(Impulse(M * N, 0), col, N, M);
    assert x[..M] == x;
    InnerUnit(column, x, 0);
    assert column[0] == Impulse(M * N, 0)[col + 0 * N];
  }

  /** The task computes alpha * mat^T * x + beta * y for all inputs of a shape if and
      only if the vector fits one strip, or the matrix contributes nothing. */
  lemma TransposedIff(M: nat, N: nat, alpha: int, beta: int, pol: Policy, vlmax: nat)
    requires Legal(pol, vlmax) && Advances(pol)
    ensures N <= vlmax || M == 0 || alpha == 0 <==>
      forall mat: seq<int>, x: seq<int>, y: int, j: nat {:trigger Result(mat, x, M, N, alpha, beta, y, pol, j)} ::
        |mat| == M * N && |x| == M && j < N ==>
          Result(mat, x, M, N, alpha, beta, y, pol, j) == Transposed(mat, x, M, N, alpha, beta, y, j)
  {
    hide Inner, Every;
    assert LegalVl(N, pol(N), vlmax);
    if N <= vlmax || M == 0 || alpha == 0 {
      forall mat: seq<int>, x: seq<int>, y: int, j: nat | |mat| == M * N && |x| == M && j < N
        ensures Result(mat, x, M, N, alpha, beta, y, pol, j) == Transposed(mat, x, M, N, alpha, beta, y, j)
      {
        LaneMapped(M, N, j);
        if N <= vlmax {
          assert StripStart(pol, 0, N, j) == 0;
        }
      }
    } else {
      var j := pol(N);
      StripProgress(pol, vlmax, N);
      var mat, x := Impulse(M * N, 0), Impulse(M, 0);
      assert StripStart(pol, 0, N, j) == j;
      ImpulseColumn(M, N, 0);
      ImpulseColumn(M, N, j);
      assert Result(mat, x, M, N, alpha, beta, 0, pol, j) != Transposed(mat, x, M, N, alpha, beta, 0, j);
    }
  }
}
