/** Facts about products and quotients that the index calculations need. */
module Arith {
  /** One more than the largest 32-bit word. */
  const TWO32: nat := 0x1_0000_0000

  lemma MulMonotone(x: int, y: int, w: nat)
    requires x <= y
    ensures x * w <= y * w
  {
  }

  lemma MulAssociates(x: int, y: int, z: int)
    ensures x * (y * z) == x * y * z
  {
  }

  lemma DivModUnique(k: int, w: nat, q: int, r: nat)
    requires r < w && k == q * w + r
    ensures k / w == q && k % w == r
  {
    var q' := k / w;
    assert k == q' * w + k % w;
    if q' > q {
      MulMonotone(q + 1, q', w);
    } else if q' < q {
      MulMonotone(q' + 1, q, w);
    }
  }

  lemma DivDecreases(v: nat, w: nat)
    requires w >= 2
    ensures v / w <= v && (v > 0 ==> v / w < v)
  {
    assert v == v / w * w + v % w;
    MulMonotone(2, w, v / w);
  }

  lemma DivBound(v: nat, w: nat, p: nat)
    requires w > 0
    ensures v / w >= p <==> v >= w * p
  {
    assert v == v / w * w + v % w;
    if v / w >= p {
      MulMonotone(p, v / w, w);
    } else {
      MulMonotone(v / w + 1, p, w);
    }
  }

  /** A remainder may be taken before a multiply-add without changing the final one. */
  lemma ModStep(x: nat, m: nat, b: nat, d: nat)
    requires m > 0
    ensures (x % m * b + d) % m == (x * b + d) % m
  {
    var y := x % m * b + d;
    assert x == x / m * m + x % m;
    assert y == y / m * m + y % m;
    assert x * b == x / m * b * m + x % m * b;
    DivModUnique(x * b + d, m, x / m * b + y / m, y % m);
  }
}
