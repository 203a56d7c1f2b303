/** The part of the RISC-V Vector Extension 1.0 that the Spatz kernels rely on:
    the strip length `vl` and the lane-wise instructions.

    A vector register is a sequence of lanes; an instruction promises a value
    only for the lanes below `vl`.  The lanes from `vl` on are left open, which
    is what the "tail agnostic" setting of every kernel asks for. */
module Rvv {

  /** The rule an implementation follows to answer `vsetvli`: a function of the
      requested length alone, so equal requests get equal answers. */
  type Policy = nat -> nat

  /** Section 6.3 of the vector extension, "Constraints on Setting vl". */
  ghost predicate LegalVl(avl: nat, vl: nat, vlmax: nat) {
    && (avl <= vlmax ==> vl == avl)
    && (vlmax < avl < 2 * vlmax ==> avl <= 2 * vl && vl <= vlmax)
    && (2 * vlmax <= avl ==> vl == vlmax)
  }

  ghost predicate Legal(pol: Policy, vlmax: nat) {
    && vlmax >= 1
    && forall avl: nat :: LegalVl(avl, pol(avl), vlmax)
  }

  /** A strip is never empty while work is left, and never longer than the work. */
  ghost predicate Advances(pol: Policy) {
    forall n: nat :: n > 0 ==> 0 < pol(n) <= n
  }

  /** Nor is it longer than the register. */
  lemma StripProgress(pol: Policy, vlmax: nat, avl: nat)
    requires Legal(pol, vlmax)
    ensures avl > 0 ==> 0 < pol(avl) <= avl
    ensures pol(avl) <= avl && pol(avl) <= vlmax
  {
    assert LegalVl(avl, pol(avl), vlmax);
  }

  lemma PolicyAdvances(pol: Policy, vlmax: nat)
    requires Legal(pol, vlmax)
    ensures Advances(pol) && forall avl: nat :: pol(avl) <= vlmax
  {
    forall avl: nat ensures pol(avl) <= vlmax && (avl > 0 ==> 0 < pol(avl) <= avl) {
      StripProgress(pol, vlmax, avl);
    }
  }

  /** The strip length never grows from one strip to the next. */
  lemma StripNeverGrows(pol: Policy, vlmax: nat, avl: nat)
    requires Legal(pol, vlmax)
    ensures pol(avl) <= avl && pol(avl - pol(avl)) <= pol(avl)
  {
  }

  /** Arithmetic as an uninterpreted parameter: whatever rounding the vector
      unit applies, the kernels are compared operation by operation.
      `fma(acc, x, y)` is one `vfmacc`, `mul(x, y)` one `vfmul`. */
  datatype Ops<!T> = Ops(mul: (T, T) -> T, fma: (T, T, T) -> T, add: (T, T) -> T)

  /** `vle`: loads `vl` consecutive elements starting at index `at`. */
  method Vle<T>(vd: seq<T>, mem: seq<T>, at: nat, vl: nat) returns (v: seq<T>)
    requires vl <= |vd| && at + vl <= |mem|
    ensures |v| == |vd|
    ensures forall l :: 0 <= l < vl ==> v[l] == mem[at + l]
  {
    v := mem[at..at + vl] + vd[vl..];
  }

  /** `vfmul.vf`: every lane times one scalar. */
  method VfmulVf<T>(ops: Ops<T>, vd: seq<T>, vs: seq<T>, f: T, vl: nat) returns (v: seq<T>)
    requires vl <= |vd| == |vs|
    ensures |v| == |vd|
    ensures forall l :: 0 <= l < vl ==> v[l] == ops.mul(f, vs[l])
  {
    v := seq(|vd|, l requires 0 <= l < |vd| => if l < vl then ops.mul(f, vs[l]) else vd[l]);
  }

  /** `vfmacc.vf`: accumulates scalar times lane into the destination. */
  method VfmaccVf<T>(ops: Ops<T>, vd: seq<T>, f: T, vs: seq<T>, vl: nat) returns (v: seq<T>)
    requires vl <= |vd| == |vs|
    ensures |v| == |vd|
    ensures forall l :: 0 <= l < vl ==> v[l] == ops.fma(vd[l], f, vs[l])
  {
    v := seq(|vd|, l requires 0 <= l < |vd| => if l < vl then ops.fma(vd[l], f, vs[l]) else vd[l]);
  }

  /** `vfadd.vv`: lane-wise sum. */
  method VfaddVv<T>(ops: Ops<T>, vd: seq<T>, v1: seq<T>, v2: seq<T>, vl: nat) returns (v: seq<T>)
    requires vl <= |vd| == |v1| == |v2|
    ensures |v| == |vd|
    ensures forall l :: 0 <= l < vl ==> v[l] == ops.add(v1[l], v2[l])
  {
    v := seq(|vd|, l requires 0 <= l < |vd| => if l < vl then ops.add(v1[l], v2[l]) else vd[l]);
  }

  /** `vse`: stores the first `vl` lanes; no other memory changes. */
  method Vse<T>(v: seq<T>, mem: array<T>, at: nat, vl: nat)
    requires vl <= |v| && at + vl <= mem.Length
    modifies mem
    ensures forall k :: 0 <= k < mem.Length ==>
      mem[k] == if at <= k < at + vl then v[k - at] else old(mem[k])
  {
    for l := 0 to vl
      invariant forall k :: 0 <= k < mem.Length ==>
        mem[k] == if at <= k < at + l then v[k - at] else old(mem[k])
    {
      mem[at + l] := v[l];
    }
  }
}
