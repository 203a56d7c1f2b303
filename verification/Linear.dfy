/** Chains of multiply-accumulate operations and inner products, over vectors taken out of flat
    memory with a stride. */
module Linear {
  import opened Arith
  import opened Rvv

  const INTS: Ops<int> := Ops((x, y) => x * y, (acc, x, y) => acc + x * y, (x, y) => x + y)

  /** The `n` elements of memory from `start` on that lie `step` apart. */
  function Every<T>(mem: seq<T>, start: nat, step: nat, n: nat): (v: seq<T>)
    requires n > 0 ==> start + (n - 1) * step < |mem|
    ensures |v| == n
    ensures forall k :: 0 <= k < n ==> 0 <= start + k * step < |mem| && v[k] == mem[start + k * step]
  {
    if n == 0 then [] else
      assert n > 1 ==> start + (n - 2) * step + step == start + (n - 1) * step;
      Every(mem, start, step, n - 1) + [mem[start + (n - 1) * step]]
  }

  lemma EveryStep<T>(mem: seq<T>, start: nat, step: nat, n: nat)
    requires start + n * step < |mem|
    ensures n > 0 ==> start + (n - 1) * step < |mem|
    ensures Every(mem, start, step, n + 1) == Every(mem, start, step, n) + [mem[start + n * step]]
  {
    assert n > 0 ==> start + (n - 1) * step + step == start + n * step;
  }

  /** One multiplication and then an accumulation for every further pair, from left to right. */
  function Chain<T>(ops: Ops<T>, xs: seq<T>, ys: seq<T>): T
    requires |xs| == |ys| >= 1
  {
    var n := |xs| - 1;
    if n == 0 then ops.mul(xs[0], ys[0]) else ops.fma(Chain(ops, xs[..n], ys[..n]), xs[n], ys[n])
  }

  lemma ChainStep<T>(ops: Ops<T>, xs: seq<T>, ys: seq<T>, x: T, y: T)
    requires |xs| == |ys|
    ensures Chain(ops, xs + [x], ys + [y]) == if xs == [] then ops.mul(x, y) else ops.fma(Chain(ops, xs, ys), x, y)
  {
    assert (xs + [x])[..|xs|] == xs && (ys + [y])[..|ys|] == ys;
  }

  // ---- What a chain is made of ----

  /** Terms of the free algebra: two results are equal only if the same operations
      were applied to the same inputs in the same order. */
  datatype Term = Input(index: nat) | Mul(x: Term, y: Term) | Fma(acc: Term, x: Term, y: Term) | Add(x: Term, y: Term)

  const TERMS: Ops<Term> := Ops((x, y) => Mul(x, y), (acc, x, y) => Fma(acc, x, y), (x, y) => Add(x, y))

  /** The accumulator `depth` accumulations inside a term. */
  function Peel(t: Term, depth: nat): Term {
    if depth > 0 && t.Fma? then Peel(t.acc, depth - 1) else t
  }

  /** Inside all later accumulations stands the one of pair `k`, and innermost the
      multiplication of the first pair. */
  lemma {:induction false} ChainOperands(xs: seq<Term>, ys: seq<Term>, k: nat)
    requires k < |xs| == |ys|
    ensures var t := Peel(Chain(TERMS, xs, ys), |xs| - 1 - k);
            if k == 0 then t == Mul(xs[0], ys[0]) else t.Fma? && t.x == xs[k] && t.y == ys[k]
  {
    var n := |xs| - 1;
    if k < n {
      ChainOperands(xs[..n], ys[..n], k);
    }
  }

  // ---- Inner products ----

  function Inner(xs: seq<int>, ys: seq<int>): int
    requires |xs| == |ys|
  {
    if xs == [] then 0 else
      var n := |xs| - 1;
      Inner(xs[..n], ys[..n]) + xs[n] * ys[n]
  }

  lemma InnerStep(xs: seq<int>, ys: seq<int>, x: int, y: int)
    requires |xs| == |ys|
    ensures Inner(xs + [x], ys + [y]) == Inner(xs, ys) + x * y
  {
    assert (xs + [x])[..|xs|] == xs && (ys + [y])[..|ys|] == ys;
  }

  lemma {:induction false} InnerConcat(xs: seq<int>, ys: seq<int>, us: seq<int>, vs: seq<int>)
    requires |xs| == |ys| && |us| == |vs|
    ensures Inner(xs + us, ys + vs) == Inner(xs, ys) + Inner(us, vs)
  {
    if us == [] {
      assert xs + us == xs && ys + vs == ys;
    } else {
      var n := |us| - 1;
      InnerConcat(xs, ys, us[..n], vs[..n]);
      assert xs + us == xs + us[..n] + [us[n]] && ys + vs == ys + vs[..n] + [vs[n]];
      InnerStep(xs + us[..n], ys + vs[..n], us[n], vs[n]);
    }
  }

  lemma {:induction false} InnerCommutes(xs: seq<int>, ys: seq<int>)
    requires |xs| == |ys|
    ensures Inner(xs, ys) == Inner(ys, xs)
  {
    if xs != [] {
      InnerCommutes(xs[..|xs| - 1], ys[..|ys| - 1]);
    }
  }

  /** 1 in place `k` and 0 elsewhere. */
  predicate IsUnit(v: seq<int>, k: nat) {
    k < |v| && v[k] == 1 && forall i :: 0 <= i < |v| && i != k ==> v[i] == 0
  }

  predicate AllZero(v: seq<int>) {
    forall i :: 0 <= i < |v| ==> v[i] == 0
  }

  lemma {:induction false} InnerZero(xs: seq<int>, zs: seq<int>)
    requires |xs| == |zs| && AllZero(zs)
    ensures Inner(xs, zs) == 0
  {
    if xs != [] {
      InnerZero(xs[..|xs| - 1], zs[..|zs| - 1]);
    }
  }

  /** A unit vector picks one element out of the other vector. */
  lemma {:induction false} InnerUnit(xs: seq<int>, e: seq<int>, k: nat)
    requires |xs| == |e| && IsUnit(e, k)
    ensures Inner(xs, e) == xs[k] == Inner(e, xs)
  {
    var n := |xs| - 1;
    if k == n {
      InnerZero(xs[..n], e[..n]);
    } else {
      InnerUnit(xs[..n], e[..n], k);
    }
    InnerCommutes(xs, e);
  }

  function Plus(xs: seq<int>, ys: seq<int>): (s: seq<int>)
    requires |xs| == |ys|
    ensures |s| == |xs| && forall i :: 0 <= i < |s| ==> s[i] == xs[i] + ys[i]
  {
    seq(|xs|, i requires 0 <= i < |xs| => xs[i] + ys[i])
  }

  function Times(c: int, xs: seq<int>): (s: seq<int>)
    ensures |s| == |xs| && forall i :: 0 <= i < |s| ==> s[i] == c * xs[i]
  {
    seq(|xs|, i requires 0 <= i < |xs| => c * xs[i])
  }

  /** With InnerUnit and InnerCommutes this leaves no other choice for the inner product. */
  lemma {:induction false} InnerIsLinear(xs: seq<int>, ys: seq<int>, zs: seq<int>, c: int)
    requires |xs| == |ys| == |zs|
    ensures Inner(xs, Plus(ys, zs)) == Inner(xs, ys) + Inner(xs, zs)
    ensures Inner(xs, Times(c, ys)) == c * Inner(xs, ys)
  {
    if xs != [] {
      var n := |xs| - 1;
      InnerIsLinear(xs[..n], ys[..n], zs[..n], c);
      assert Plus(ys, zs)[..n] == Plus(ys[..n], zs[..n]) && Times(c, ys)[..n] == Times(c, ys[..n]);
      Distributes(xs[n], ys[n], zs[n], c, Inner(xs[..n], ys[..n]));
    }
  }

  lemma Distributes(x: int, y: int, z: int, c: int, rest: int)
    ensures x * (y + z) == x * y + x * z
    ensures c * rest + x * (c * y) == c * (rest + x * y)
  {
  }

  /** Over the integers a chain is an inner product. */
  lemma {:induction false} ChainIsInner(xs: seq<int>, ys: seq<int>)
    requires |xs| == |ys| >= 1
    ensures Chain(INTS, xs, ys) == Inner(xs, ys)
  {
    var n := |xs| - 1;
    if n > 0 {
      ChainIsInner(xs[..n], ys[..n]);
    } else {
      assert Inner(xs[..0], ys[..0]) == 0;
    }
  }
}
