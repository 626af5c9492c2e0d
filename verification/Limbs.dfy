/** Numbers as 32-bit limbs, least significant first, and what limb-wise algorithms do to their value. */
module Limbs {
  import opened Radix

  const BASE := 0x1_0000_0000

  function Weight(k: nat): (r: nat)
    ensures r > 0
  {
    PowPositive(BASE, k);
    Pow(BASE, k)
  }

  ghost predicate AreLimbs(s: seq<nat>) {
    Below(s, BASE)
  }

  function Val(s: seq<nat>): nat {
    if s == [] then 0 else Val(s[..|s| - 1]) + s[|s| - 1] * Weight(|s| - 1)
  }

  lemma WeightNext(k: nat)
    ensures Weight(k + 1) == BASE * Weight(k) && Weight(0) == 1
  {
  }

  lemma ValNext(s: seq<nat>, i: nat)
    requires i < |s|
    ensures Val(s[..i + 1]) == Val(s[..i]) + s[i] * Weight(i)
  {
    assert s[..i + 1][..i] == s[..i];
  }

  lemma {:induction false} ValBound(s: seq<nat>)
    requires AreLimbs(s)
    ensures Val(s) < Weight(|s|)
  {
    hide Weight;
    if s == [] {
      WeightNext(0);
    } else {
      var n := |s| - 1;
      ValBound(s[..n]);
      WeightNext(n);
      MulLe(s[n], BASE - 1, Weight(n));
    }
  }

  lemma {:induction false} ValSplit(s: seq<nat>, k: nat)
    requires k <= |s|
    ensures Val(s) == Val(s[..k]) + Weight(k) * Val(s[k..])
    decreases |s|
  {
    hide Weight;
    if k == |s| {
      assert s[..k] == s && s[k..] == [];
    } else {
      var n := |s| - 1;
      ValSplit(s[..n], k);
      assert s[..n][..k] == s[..k] && s[..n][k..] == s[k..][..n - k];
      WeightAdd(k, n - k);
      assert s[k..][..n - k] == s[k..n] && s[k..][n - k] == s[n];
      SplitAlgebra(Val(s[..k]), Weight(k), Val(s[k..n]), s[n], Weight(n - k));
      assert s[..n][k..] == s[k..n];
    }
  }

  lemma SplitAlgebra(lo: nat, w: nat, hi: nat, d: nat, v: nat)
    ensures lo + w * (hi + d * v) == lo + w * hi + d * (w * v)
  {
    assert w * (d * v) == d * (w * v);
  }

  lemma WeightAdd(m: nat, n: nat)
    ensures Weight(m + n) == Weight(m) * Weight(n)
  {
    PowAdd(BASE, m, n);
  }

  lemma {:induction false} ValOfZeroes(s: seq<nat>)
    requires Zeroes(s)
    ensures Val(s) == 0
  {
    if s != [] {
      ValOfZeroes(s[..|s| - 1]);
    }
  }

  /** The value modulo the capacity is what is left when multiples of the capacity are lost. */
  lemma Wraps(v: nat, lost: nat, total: nat, m: nat)
    requires v < m && v + lost * m == total
    ensures v == total % m && lost == total / m
  {
    DivideBack(lost, v, m);
  }

  /** The product, named so that proofs can leave it alone. */
  function Mul(a: nat, b: nat): nat {
    a * b
  }

  lemma MulIs(a: nat, b: nat)
    ensures Mul(a, b) == a * b
  {
  }

  // ---------- adding ----------

  /** The lowest `i` limbs have been added; `carry` is left over. */
  ghost predicate Adding(a: seq<nat>, b: seq<nat>, r: seq<nat>, i: nat, carry: nat) {
    && |a| == |b| == |r| && i <= |a| && AreLimbs(r) && r[i..] == a[i..] && carry <= 1
    && Val(r[..i]) + Mul(carry, Weight(i)) == Val(a[..i]) + Val(b[..i])
  }

  lemma AddStart(a: seq<nat>, b: seq<nat>)
    requires |a| == |b| && AreLimbs(a)
    ensures Adding(a, b, a, 0, 0)
  {
  }

  lemma AddStep(a: seq<nat>, b: seq<nat>, r: seq<nat>, i: nat, carry: nat)
    requires Adding(a, b, r, i, carry) && i < |a| && AreLimbs(a) && AreLimbs(b)
    ensures var n := carry + a[i] + b[i];
            n < BASE * BASE && Adding(a, b, r[i := n % BASE], i + 1, n / BASE)
  {
    hide Weight, Val;
    var n := carry + a[i] + b[i];
    var next := r[i := n % BASE];
    WeightNext(i);
    ValNext(a, i);
    ValNext(b, i);
    ValNext(next, i);
    assert next[..i] == r[..i];
    CarryOver(Val(r[..i]), carry, n % BASE, n / BASE, a[i] + b[i], Val(a[..i]) + Val(b[..i]), Weight(i));
    Sum(a[i], b[i], Weight(i));
  }

  lemma Sum(a: nat, b: nat, w: nat)
    ensures (a + b) * w == a * w + b * w
  {
  }

  /** One limb: what exceeds it goes into the carry. */
  lemma CarryOver(low: nat, carry: nat, limb: nat, next: nat, x: nat, total: nat, w: nat)
    requires low + carry * w == total && carry + x == next * BASE + limb
    ensures low + limb * w + next * (BASE * w) == total + x * w
  {
    assert next * (BASE * w) == (next * BASE) * w;
    assert (next * BASE) * w + limb * w == (carry + x) * w;
  }

  lemma AddEnd(a: seq<nat>, b: seq<nat>, r: seq<nat>, carry: nat)
    requires Adding(a, b, r, |a|, carry)
    ensures AreLimbs(r) && Val(r) == (Val(a) + Val(b)) % Weight(|a|)
  {
    hide Weight, Val, Mul;
    assert a[..|a|] == a && b[..|b|] == b && r[..|r|] == r;
    ValBound(r);
    WrapsMul(Val(r), carry, Val(a) + Val(b), Weight(|a|));
  }

  // ---------- negating ----------

  lemma {:induction false} ValOfComplement(s: seq<nat>, r: seq<nat>)
    requires |r| == |s| && AreLimbs(s) && forall i :: 0 <= i < |s| ==> r[i] == BASE - 1 - s[i]
    ensures AreLimbs(r) && Val(r) == Weight(|s|) - 1 - Val(s)
  {
    hide Weight;
    if s == [] {
      WeightNext(0);
    } else {
      var n := |s| - 1;
      ValOfComplement(s[..n], r[..n]);
      WeightNext(n);
      assert (BASE - 1 - s[n]) * Weight(n) == (BASE - 1) * Weight(n) - s[n] * Weight(n);
    }
  }

  // ---------- multiplying ----------

  /** `p` times the lowest `i` limbs of `b`, shifted by `j` limbs, have been added; `carry` is left over. */
  ghost predicate Multiplying(a: seq<nat>, b: seq<nat>, r: seq<nat>, j: nat, i: nat, p: nat, carry: nat) {
    && |a| == |b| == |r| && i + j <= |a| && AreLimbs(r) && r[i + j..] == a[i + j..] && carry < BASE
    && Val(r[..i + j]) + Mul(carry, Weight(i + j)) == Val(a[..i + j]) + Mul(p, Mul(Weight(j), Val(b[..i])))
  }

  lemma MultiplyStart(a: seq<nat>, b: seq<nat>, j: nat, p: nat)
    requires |a| == |b| && j <= |a| && AreLimbs(a)
    ensures Multiplying(a, b, a, j, 0, p, 0)
  {
    hide Weight;
    assert Val(b[..0]) == 0;
  }

  lemma ProductFits(carry: nat, a: nat, p: nat, b: nat)
    requires carry < BASE && a < BASE && p < BASE && b < BASE
    ensures carry + a + Mul(p, b) < BASE * BASE && (carry + a + Mul(p, b)) / BASE < BASE
  {
    MulLe(p, BASE - 1, b);
    MulLe(b, BASE - 1, BASE - 1);
  }

  lemma MultiplyStep(a: seq<nat>, b: seq<nat>, r: seq<nat>, j: nat, i: nat, p: nat, carry: nat)
    requires Multiplying(a, b, r, j, i, p, carry) && i + j < |a| && AreLimbs(a) && AreLimbs(b) && p < BASE
    ensures var n := carry + a[i + j] + Mul(p, b[i]);
            n < BASE * BASE && Multiplying(a, b, r[i + j := n % BASE], j, i + 1, p, n / BASE)
  {
    hide Weight, Val, Mul;
    var k := i + j;
    var n := carry + a[k] + Mul(p, b[i]);
    ProductFits(carry, a[k], p, b[i]);
    var next := r[k := n % BASE];
    WeightNext(k);
    WeightAdd(j, i);
    ValNextMul(a, k);
    ValNextMul(b, i);
    ValNextMul(next, k);
    assert next[..k] == r[..k];
    MultiplyAlgebra(Val(r[..k]), carry, n % BASE, n / BASE, a[k], p, b[i], Val(a[..k]), Weight(j), Weight(i),
        Val(b[..i]));
    assert next[k + 1..] == a[k + 1..];
  }

  lemma ValNextMul(s: seq<nat>, i: nat)
    requires i < |s|
    ensures Val(s[..i + 1]) == Val(s[..i]) + Mul(s[i], Weight(i))
  {
    ValNext(s, i);
  }

  lemma MultiplyAlgebra(low: nat, carry: nat, limb: nat, next: nat, a: nat, p: nat, b: nat, lowA: nat, wj: nat,
                        wi: nat, v: nat)
    requires carry + a + Mul(p, b) == next * BASE + limb
    requires low + Mul(carry, wj * wi) == lowA + Mul(p, Mul(wj, v))
    ensures low + Mul(limb, wj * wi) + Mul(next, BASE * (wj * wi)) ==
              lowA + Mul(a, wj * wi) + Mul(p, Mul(wj, v + Mul(b, wi)))
  {
    CarryOver(low, carry, limb, next, a + p * b, lowA + p * (wj * v), wj * wi);
    PartAlgebra(a, p, b, wj, wi, v);
  }

  lemma PartAlgebra(a: nat, p: nat, b: nat, wj: nat, wi: nat, v: nat)
    ensures (a + p * b) * (wj * wi) + p * (wj * v) == a * (wj * wi) + p * (wj * (v + b * wi))
  {
    assert wj * (v + b * wi) == wj * v + b * (wj * wi);
    assert p * (b * (wj * wi)) == (p * b) * (wj * wi);
    assert p * (wj * v + b * (wj * wi)) == p * (wj * v) + p * (b * (wj * wi));
  }

  /** `a` is the product of the lowest `j` limbs of `p` and `b`, but for `lost` multiples of the capacity. */
  ghost predicate Product(p: seq<nat>, b: seq<nat>, a: seq<nat>, j: nat, lost: nat) {
    |p| == |b| == |a| && j <= |p| && AreLimbs(a) && Val(a) + Mul(lost, Weight(|p|)) == Mul(Val(p[..j]), Val(b))
  }

  lemma ProductStep(p: seq<nat>, b: seq<nat>, a: seq<nat>, r: seq<nat>, j: nat, lost: nat, carry: nat)
    returns (more: nat)
    requires Product(p, b, a, j, lost) && j < |p| && Multiplying(a, b, r, j, |p| - j, p[j], carry)
    ensures Product(p, b, r, j + 1, more)
  {
    hide Weight, Val, Mul;
    var n := |p|;
    ValNextMul(p, j);
    ValSplitMul(b, n - j);
    WeightAdd(j, n - j);
    assert r[..n] == r && a[..n] == a;
    more := lost + carry + Mul(p[j], Val(b[n - j..]));
    ProductAlgebra(Val(p[..j]), p[j], Weight(j), Weight(n - j), Val(b[..n - j]), Val(b[n - j..]), Val(r), Val(a), lost,
        carry);
  }

  lemma ValSplitMul(s: seq<nat>, k: nat)
    requires k <= |s|
    ensures Val(s) == Val(s[..k]) + Mul(Weight(k), Val(s[k..]))
  {
    ValSplit(s, k);
  }

  lemma ProductAlgebra(p: nat, d: nat, wj: nat, wr: nat, lo: nat, hi: nat, r: nat, a: nat, lost: nat, carry: nat)
    requires a + Mul(lost, wj * wr) == Mul(p, lo + Mul(wr, hi)) && r + Mul(carry, wj * wr) == a + Mul(d, Mul(wj, lo))
    ensures r + Mul(lost + carry + Mul(d, hi), wj * wr) == Mul(p + Mul(d, wj), lo + Mul(wr, hi))
  {
    var m := wj * wr;
    assert (lost + carry + d * hi) * m == lost * m + carry * m + (d * hi) * m;
    assert (p + d * wj) * (lo + wr * hi) == p * (lo + wr * hi) + (d * wj) * (lo + wr * hi);
    assert (d * wj) * (lo + wr * hi) == d * (wj * lo) + (d * hi) * m by {
      assert (d * wj) * lo == d * (wj * lo);
      assert (d * wj) * (wr * hi) == (d * hi) * (wj * wr);
    }
  }

  lemma ProductEnd(p: seq<nat>, b: seq<nat>, a: seq<nat>, lost: nat)
    requires Product(p, b, a, |p|, lost)
    ensures AreLimbs(a) && Val(a) == Mul(Val(p), Val(b)) % Weight(|p|)
  {
    hide Weight, Val, Mul;
    assert p[..|p|] == p;
    ValBound(a);
    WrapsMul(Val(a), lost, Mul(Val(p), Val(b)), Weight(|p|));
  }

  lemma WrapsMul(v: nat, lost: nat, total: nat, m: nat)
    requires v < m && v + Mul(lost, m) == total
    ensures v == total % m
  {
    Wraps(v, lost, total, m);
  }
}
