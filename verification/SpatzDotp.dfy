/** The strip-mined dot product, over the integers (the kernel reassociates the
    sum, so it is compared in a commutative ring, where rounding plays no part).

    The kernel asks for "tail agnostic" strips, yet reads lanes back after
    shorter strips have passed over them.  The model therefore makes the tail
    explicit: `tail(avl, l, x)` is what lane `l`, holding `x` and lying beyond the
    strip length, becomes when an instruction runs with `avl` elements to go. */
module SpatzDotp {
  import opened Arith
  import opened Linear
  import opened Rvv

  type Tail = (nat, nat, int) -> int

  /** The hardware leaves tail lanes alone. */
  ghost predicate Undisturbed(tail: Tail) {
    forall avl, l, x :: tail(avl, l, x) == x
  }

  /** The sum of a[i] * b[i] for lo <= i < hi. */
  function Products(a: seq<int>, b: seq<int>, lo: nat, hi: nat): int
    requires lo <= hi <= |a| && hi <= |b|
  {
    Inner(a[lo..hi], b[lo..hi])
  }

  lemma NoProducts(a: seq<int>, b: seq<int>, at: nat)
    requires at <= |a| && at <= |b|
    ensures Products(a, b, at, at) == 0
  {
  }

  lemma ProductsStep(a: seq<int>, b: seq<int>, lo: nat, hi: nat)
    requires lo < hi <= |a| && hi <= |b|
    ensures Products(a, b, lo, hi) == Products(a, b, lo, hi - 1) + a[hi - 1] * b[hi - 1]
  {
    assert a[lo..hi] == a[lo..hi - 1] + [a[hi - 1]] && b[lo..hi] == b[lo..hi - 1] + [b[hi - 1]];
    InnerStep(a[lo..hi - 1], b[lo..hi - 1], a[hi - 1], b[hi - 1]);
  }

  lemma ProductsSplit(a: seq<int>, b: seq<int>, lo: nat, mid: nat, hi: nat)
    requires lo <= mid <= hi <= |a| && hi <= |b|
    ensures Products(a, b, lo, hi) == Products(a, b, lo, mid) + Products(a, b, mid, hi)
  {
    assert a[lo..hi] == a[lo..mid] + a[mid..hi] && b[lo..hi] == b[lo..mid] + b[mid..hi];
    InnerConcat(a[lo..mid], b[lo..mid], a[mid..hi], b[mid..hi]);
  }

  /** The reduction of the first `n` lanes. */
  function SumLanes(v: seq<int>, n: nat): int
    requires n <= |v|
  {
    if n == 0 then 0 else SumLanes(v, n - 1) + v[n - 1]
  }

  /** One strip: `vfmul` the first time, `vfmacc` afterwards. */
  function Strip(a: seq<int>, b: seq<int>, at: nat, avl: nat, vl: nat, first: bool, v: seq<int>, tail: Tail): (v': seq<int>)
    requires at + vl <= |a| && at + vl <= |b|
    ensures |v'| == |v|
  {
    seq(|v|, l requires 0 <= l < |v| =>
      if l >= vl then tail(avl, l, v[l])
      else if first then a[at + l] * b[at + l]
      else v[l] + a[at + l] * b[at + l])
  }

  /** The accumulator after the strips that cover the last `avl` elements. */
  function Strips(a: seq<int>, b: seq<int>, at: nat, avl: nat, length: nat, v: seq<int>, pol: Policy, tail: Tail): (v': seq<int>)
    requires at + avl <= |a| && at + avl <= |b|
    requires Advances(pol)
    ensures |v'| == |v|
    decreases avl
  {
    if avl == 0 then v
    else
      var vl := pol(avl);
      Strips(a, b, at + vl, avl - vl, length, Strip(a, b, at, avl, vl, avl == length, v, tail), pol, tail)
  }

  /** What the kernel returns for a non-empty input. */
  function Reduction(a: seq<int>, b: seq<int>, length: nat, v: seq<int>, pol: Policy, tail: Tail): int
    requires 0 < length <= |a| && length <= |b|
    requires Advances(pol)
    requires pol(length) <= |v|
  {
    SumLanes(Strips(a, b, 0, length, length, v, pol, tail), pol(length))
  }

  /** `vfredusum`: the sum of the first `vl` lanes on top of `red0`. */
  method AddLanes(red0: int, v: seq<int>, vl: nat) returns (red: int)
    requires vl <= |v|
    ensures red == red0 + SumLanes(v, vl)
  {
    red := red0;
    for l := 0 to vl
      invariant red == red0 + SumLanes(v, l)
    {
      red := red + v[l];
    }
  }

  /** The kernel.  `v0` is what lane 0 of the reduction register held before: with
      an empty input no element is written and it is returned as it was. */
  method Fdotp(a: seq<int>, b: seq<int>, length: nat, pol: Policy, vlmax: nat, tail: Tail, v0: int, stale: seq<int>)
    returns (red: int)
    requires Legal(pol, vlmax) && |stale| == vlmax
    requires length <= |a| && length <= |b|
    ensures length == 0 ==> red == v0
    ensures Advances(pol) && pol(length) <= vlmax
    ensures length > 0 ==> red == Reduction(a, b, length, stale, pol, tail)
    ensures length > 0 && Undisturbed(tail) ==> red == Inner(a[..length], b[..length])
    ensures forall k: nat :: k < length && Undisturbed(tail) && IsUnit(b[..length], k) ==> red == a[k]
    ensures forall k: nat :: k < length && Undisturbed(tail) && IsUnit(a[..length], k) ==> red == b[k]
  {
    hide Inner, IsUnit, Strip, Undisturbed;
    PolicyAdvances(pol, vlmax);
    assert LegalVl(0, pol(0), vlmax);
    var avl := length;
    var vl := pol(avl);
    red := if vl > 0 then 0 else v0;
    var at := 0;
    var v24 := stale;
    while true
      invariant at + avl == length && (avl > 0 || length == 0)
      invariant |v24| == vlmax
      invariant Strips(a, b, at, avl, length, v24, pol, tail) == Strips(a, b, 0, length, length, stale, pol, tail)
      decreases avl
    {
      vl := pol(avl);
      v24 := Strip(a, b, at, avl, vl, avl == length, v24, tail);
      at := at + vl;
      avl := avl - vl;
      if avl == 0 {
        break;
      }
    }
    vl := pol(length);
    red := AddLanes(red, v24, vl);
    if length > 0 && Undisturbed(tail) {
      ReductionIsInner(a, b, length, stale, pol, vlmax, tail);
    }
  }

  lemma ReductionIsInner(a: seq<int>, b: seq<int>, length: nat, v: seq<int>, pol: Policy, vlmax: nat, tail: Tail)
    requires Legal(pol, vlmax) && |v| == vlmax && Undisturbed(tail)
    requires 0 < length <= |a| && length <= |b|
    requires Advances(pol) && pol(length) <= vlmax
    ensures var red := Reduction(a, b, length, v, pol, tail);
            && red == Inner(a[..length], b[..length])
            && (forall k: nat :: IsUnit(b[..length], k) ==> k < length && red == a[k])
            && (forall k: nat :: IsUnit(a[..length], k) ==> k < length && red == b[k])
  {
    ReductionIsProducts(a, b, length, v, pol, vlmax, tail);
    assert a[0..length] == a[..length] && b[0..length] == b[..length];
    forall k: nat | IsUnit(b[..length], k) ensures k < length && Inner(a[..length], b[..length]) == a[k] {
      InnerUnit(a[..length], b[..length], k);
    }
    forall k: nat | IsUnit(a[..length], k) ensures k < length && Inner(a[..length], b[..length]) == b[k] {
      InnerUnit(b[..length], a[..length], k);
    }
  }

  /** Every strip from `avl` on is as long as the first. */
  ghost predicate Uniform(avl: nat, first: nat, pol: Policy)
    requires Advances(pol)
    decreases avl
  {
    avl == 0 || (pol(avl) == first && Uniform(avl - pol(avl), first, pol))
  }

  /** Lanes below a strip's length gain its products; the others are untouched or
      there are none. */
  lemma {:induction false} StripAdds(a: seq<int>, b: seq<int>, at: nat, avl: nat, vl: nat, first: bool,
                                     v: seq<int>, tail: Tail, n: nat)
    requires at + vl <= |a| && at + vl <= |b| && n <= |v|
    requires (first ==> n <= vl) && (Undisturbed(tail) || n <= vl)
    ensures SumLanes(Strip(a, b, at, avl, vl, first, v, tail), n)
         == (if first then 0 else SumLanes(v, n)) + Products(a, b, at, at + if n < vl then n else vl)
  {
    if n > 0 {
      StripAdds(a, b, at, avl, vl, first, v, tail, n - 1);
      if n <= vl {
        ProductsStep(a, b, at, at + n);
      }
    }
  }

  lemma {:induction false} StripsAdd(a: seq<int>, b: seq<int>, at: nat, avl: nat, length: nat, v: seq<int>,
                                     pol: Policy, vlmax: nat, tail: Tail, n: nat)
    requires Legal(pol, vlmax) && |v| == vlmax
    requires at + avl == length <= |a| && length <= |b|
    requires Advances(pol)
    requires avl > 0 ==> pol(avl) <= n
    requires n <= vlmax && (avl == length ==> n == pol(length))
    requires Undisturbed(tail) || Uniform(avl, n, pol)
    ensures SumLanes(Strips(a, b, at, avl, length, v, pol, tail), n)
         == (if avl == length && avl > 0 then 0 else SumLanes(v, n)) + Products(a, b, at, length)
    decreases avl
  {
    hide Inner, Products;
    if avl == 0 {
      NoProducts(a, b, length);
    } else {
      var vl := pol(avl);
      StripNeverGrows(pol, vlmax, avl);
      StripAdds(a, b, at, avl, vl, avl == length, v, tail, n);
      StripsAdd(a, b, at + vl, avl - vl, length, Strip(a, b, at, avl, vl, avl == length, v, tail), pol, vlmax, tail, n);
      ProductsSplit(a, b, at, at + vl, length);
    }
  }

  /** With undisturbed tails, or with strips of one length, the reduction is the
      dot product: the strip length never grows, so the final `vsetvli` on the
      original length covers every lane that was ever used. */
  lemma ReductionIsProducts(a: seq<int>, b: seq<int>, length: nat, v: seq<int>, pol: Policy, vlmax: nat, tail: Tail)
    requires Legal(pol, vlmax) && |v| == vlmax
    requires 0 < length <= |a| && length <= |b|
    requires Advances(pol)
    requires Undisturbed(tail) || Uniform(length, pol(length), pol)
    ensures pol(length) <= vlmax && Reduction(a, b, length, v, pol, tail) == Products(a, b, 0, length)
  {
    StripProgress(pol, vlmax, length);
    StripsAdd(a, b, 0, length, length, v, pol, vlmax, tail, pol(length));
  }

  // ---- What the "tail agnostic" setting would allow ----

  /** Hardware that overwrites every tail lane, as section 3.4.3 of the vector
      extension allows under "tail agnostic".  The 1 stands for the pattern of all
      ones that it writes; the argument only needs it to be positive. */
  const OVERWRITTEN: Tail := (avl, l, x) => 1

  function Zeros(n: nat): (z: seq<int>)
    ensures |z| == n && forall i :: 0 <= i < n ==> z[i] == 0
  {
    seq(n, i => 0)
  }

  lemma ProductsZero(n: nat, lo: nat, hi: nat)
    requires lo <= hi <= n
    ensures Products(Zeros(n), Zeros(n), lo, hi) == 0
  {
    InnerZero(Zeros(n)[lo..hi], Zeros(n)[lo..hi]);
  }

  /** On all-zero inputs every lane of the first strip ends as 0 or 1. */
  lemma StripBit(length: nat, at: nat, avl: nat, vl: nat, v: seq<int>, l: nat)
    requires at + vl <= length && l < |v| && (avl == length ==> l < vl)
    requires avl != length ==> v[l] == 0 || v[l] == 1
    ensures var w := Strip(Zeros(length), Zeros(length), at, avl, vl, avl == length, v, OVERWRITTEN);
            w[l] == 0 || w[l] == 1
  {
  }

  lemma {:induction false} LanesAreBits(at: nat, avl: nat, length: nat, v: seq<int>, pol: Policy, vlmax: nat, n: nat, l: nat)
    requires Legal(pol, vlmax) && |v| == vlmax && at + avl == length && Advances(pol)
    requires l < n <= vlmax && (avl == length ==> n == pol(length) && avl > 0)
    requires avl < length ==> v[l] == 0 || v[l] == 1
    ensures var v' := Strips(Zeros(length), Zeros(length), at, avl, length, v, pol, OVERWRITTEN);
      v'[l] == 0 || v'[l] == 1
    decreases avl
  {
    hide Strip;
    if avl > 0 {
      var w := Strip(Zeros(length), Zeros(length), at, avl, pol(avl), avl == length, v, OVERWRITTEN);
      StripBit(length, at, avl, pol(avl), v, l);
      LanesAreBits(at + pol(avl), avl - pol(avl), length, w, pol, vlmax, n, l);
    }
  }

  /** A lane beyond the current strip length is overwritten and never used again. */
  lemma {:induction false} LaneStaysOverwritten(at: nat, avl: nat, length: nat, v: seq<int>, pol: Policy, vlmax: nat, l: nat)
    requires Legal(pol, vlmax) && |v| == vlmax && at + avl == length && Advances(pol)
    requires avl > 0 && pol(avl) <= l < vlmax
    ensures Strips(Zeros(length), Zeros(length), at, avl, length, v, pol, OVERWRITTEN)[l] == 1
    decreases avl
  {
    var w := Strip(Zeros(length), Zeros(length), at, avl, pol(avl), avl == length, v, OVERWRITTEN);
    StripNeverGrows(pol, vlmax, avl);
    if avl > pol(avl) {
      LaneStaysOverwritten(at + pol(avl), avl - pol(avl), length, w, pol, vlmax, l);
    }
  }

  /** So the last lane of the first strip ends as 1 if a later strip is shorter. */
  lemma {:induction false} LastLaneOverwritten(at: nat, avl: nat, length: nat, v: seq<int>, pol: Policy, vlmax: nat, n: nat)
    requires Legal(pol, vlmax) && |v| == vlmax && at + avl == length && Advances(pol)
    requires 0 < n <= vlmax && pol(avl) <= n && !Uniform(avl, n, pol)
    ensures Strips(Zeros(length), Zeros(length), at, avl, length, v, pol, OVERWRITTEN)[n - 1] == 1
    decreases avl
  {
    if pol(avl) < n {
      LaneStaysOverwritten(at, avl, length, v, pol, vlmax, n - 1);
    } else {
      var w := Strip(Zeros(length), Zeros(length), at, avl, pol(avl), avl == length, v, OVERWRITTEN);
      StripNeverGrows(pol, vlmax, avl);
      LastLaneOverwritten(at + pol(avl), avl - pol(avl), length, w, pol, vlmax, n);
    }
  }

  lemma {:induction false} SumOfBits(v: seq<int>, n: nat)
    requires n <= |v| && forall k :: 0 <= k < n ==> v[k] == 0 || v[k] == 1
    ensures SumLanes(v, n) >= 0
    ensures n > 0 && v[n - 1] == 1 ==> SumLanes(v, n) > 0
  {
    if n > 0 {
      SumOfBits(v, n - 1);
    }
  }

  /** If some strip is shorter than the first, agnostic hardware breaks the result. */
  lemma ShortStripBreaks(length: nat, v: seq<int>, pol: Policy, vlmax: nat)
    requires Legal(pol, vlmax) && |v| == vlmax && length > 0
    requires Advances(pol)
    requires !Uniform(length, pol(length), pol)
    ensures pol(length) <= vlmax
    ensures Reduction(Zeros(length), Zeros(length), length, v, pol, OVERWRITTEN)
         != Products(Zeros(length), Zeros(length), 0, length)
  {
    StripProgress(pol, vlmax, length);
    var n := pol(length);
    var v' := Strips(Zeros(length), Zeros(length), 0, length, length, v, pol, OVERWRITTEN);
    forall l | 0 <= l < n
      ensures v'[l] == 0 || v'[l] == 1
    {
      LanesAreBits(0, length, length, v, pol, vlmax, n, l);
    }
    LastLaneOverwritten(0, length, length, v, pol, vlmax, n);
    SumOfBits(v', n);
    ProductsZero(length, 0, length);
  }

  lemma {:induction false} UniformIsMultiple(avl: nat, first: nat, pol: Policy)
    requires Advances(pol) && first > 0 && Uniform(avl, first, pol)
    ensures avl % first == 0
    decreases avl
  {
    if avl > 0 {
      UniformIsMultiple(avl - first, first, pol);
      DivModUnique(avl, first, (avl - first) / first + 1, 0);
    }
  }

  /** Work that is a multiple of a full register is done in full registers. */
  lemma {:induction false} FullStrips(avl: nat, pol: Policy, vlmax: nat)
    requires Legal(pol, vlmax) && Advances(pol) && avl % vlmax == 0
    ensures Uniform(avl, vlmax, pol)
    decreases avl
  {
    if avl > 0 {
      assert LegalVl(avl, pol(avl), vlmax);
      var k := avl / vlmax;
      assert avl == k * vlmax;
      if k == 1 {
        assert avl == vlmax;
      } else {
        MulMonotone(2, k, vlmax);
      }
      DivModUnique(avl - vlmax, vlmax, k - 1, 0);
      FullStrips(avl - vlmax, pol, vlmax);
    }
  }

  /** All strips have one length exactly when the first strip length divides the work. */
  lemma UniformIff(length: nat, pol: Policy, vlmax: nat)
    requires Legal(pol, vlmax) && Advances(pol) && length > 0
    ensures Uniform(length, pol(length), pol) <==> length % pol(length) == 0
  {
    var vl := pol(length);
    assert LegalVl(length, vl, vlmax);
    if Uniform(length, vl, pol) {
      UniformIsMultiple(length, vl, pol);
    }
    if length % vl == 0 {
      MultipleIsUniform(length, pol, vlmax);
    }
  }

  lemma MultipleIsUniform(length: nat, pol: Policy, vlmax: nat)
    requires Legal(pol, vlmax) && Advances(pol) && length > 0 && length % pol(length) == 0
    ensures Uniform(length, pol(length), pol)
  {
    var vl := pol(length);
    assert LegalVl(length, vl, vlmax);
    if length >= 2 * vlmax {
      FullStrips(length, pol, vlmax);
    } else if length > vlmax {
      TwoStrips(length, vl);
      assert LegalVl(vl, pol(vl), vlmax);
    }
  }

  lemma TwoStrips(length: nat, vl: nat)
    requires 0 < vl < length <= 2 * vl && length % vl == 0
    ensures length == 2 * vl
  {
    if length < 2 * vl {
      DivModUnique(length, vl, 1, length - vl);
    }
  }

  /** The kernel is right on tail-agnostic hardware, whatever that hardware writes,
      if and only if the strip length that the first `vsetvli` answers divides the
      length. */
  lemma TailAgnosticIff(length: nat, v: seq<int>, pol: Policy, vlmax: nat)
    requires Legal(pol, vlmax) && |v| == vlmax && length > 0
    requires Advances(pol) && pol(length) <= vlmax
    ensures length % pol(length) == 0 <==>
            forall a: seq<int>, b: seq<int>, tail: Tail {:trigger Reduction(a, b, length, v, pol, tail)} ::
              |a| == |b| == length ==> Reduction(a, b, length, v, pol, tail) == Products(a, b, 0, length)
  {
    UniformIff(length, pol, vlmax);
    if Uniform(length, pol(length), pol) {
      forall a: seq<int>, b: seq<int>, tail: Tail | |a| == |b| == length
        ensures Reduction(a, b, length, v, pol, tail) == Products(a, b, 0, length)
      {
        ReductionIsProducts(a, b, length, v, pol, vlmax, tail);
      }
    } else {
      ShortStripBreaks(length, v, pol, vlmax);
    }
  }
}
