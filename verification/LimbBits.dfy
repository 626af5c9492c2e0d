/** Bitwise operations on limbs: or, comparison, counting bits, and shifts. */
module LimbBits {
  import opened Radix
  import opened Limbs

  lemma Pow2Add(m: nat, n: nat)
    ensures Pow2(m + n) == Mul(Pow2(m), Pow2(n))
  {
    PowAdd(2, m, n);
  }

  lemma Pow2Limb()
    ensures Pow2(32) == BASE
  {
    assert Pow(2, 8) == 256;
    PowAdd(2, 8, 8);
    PowAdd(2, 16, 16);
  }

  lemma {:induction false} Pow2Weight(k: nat)
    ensures Pow2(32 * k) == Weight(k)
  {
    hide Pow2, Weight, Mul;
    if k == 0 {
      Pow2Next(0);
      WeightNext(0);
    } else {
      Pow2Weight(k - 1);
      Pow2Add(32, 32 * (k - 1));
      Pow2Limb();
      WeightNext(k - 1);
      MulIs(BASE, Weight(k - 1));
    }
  }

  // ---------- or ----------

  /** Bitwise or of natural numbers. */
  function Or(x: nat, y: nat): nat {
    if x == 0 then y else if y == 0 then x else 2 * Or(x / 2, y / 2) + (if x % 2 == 1 || y % 2 == 1 then 1 else 0)
  }

  lemma {:induction false} OrComm(x: nat, y: nat)
    ensures Or(x, y) == Or(y, x)
    decreases x
  {
    if x > 0 && y > 0 {
      OrComm(x / 2, y / 2);
    }
  }

  /** Numbers without a common bit range are added. */
  lemma {:induction false} OrAdds(x: nat, q: nat, k: nat)
    requires x < Pow2(k)
    ensures Or(x, Mul(q, Pow2(k))) == x + Mul(q, Pow2(k))
    decreases k
  {
    if k > 0 && x > 0 && q > 0 {
      var y := Mul(q, Pow2(k));
      Pow2Next(k - 1);
      HalfOf(q, k);
      hide Pow2, Mul;
      OrAdds(x / 2, q, k - 1);
    }
  }

  lemma HalfOf(q: nat, k: nat)
    requires k > 0
    ensures Mul(q, Pow2(k)) / 2 == Mul(q, Pow2(k - 1)) && Mul(q, Pow2(k)) % 2 == 0
  {
    Pow2Next(k - 1);
    hide Pow2;
    assert q * (2 * Pow2(k - 1)) == 2 * (q * Pow2(k - 1));
  }

  // ---------- shifting left ----------

  /** The part of a shifted limb that stays, and the part that goes over into the next limb. */
  function Up(a: nat, s: nat): nat {
    Mul(a, Pow2(s)) % BASE
  }

  function Over(a: nat, s: nat): nat
    requires s <= 32
  {
    a / Pow2(32 - s)
  }

  lemma HalvesOfLimb(s: nat)
    requires s <= 32
    ensures Mul(Pow2(s), Pow2(32 - s)) == BASE
  {
    hide Mul, Pow2;
    Pow2Add(s, 32 - s);
    Pow2Limb();
  }

  lemma Distribute(q: nat, b: nat, r: nat, w: nat)
    ensures (q * b + r) * w == r * w + q * (b * w)
  {
    assert (q * b) * w == q * (b * w);
  }

  lemma LimbAlgebra(a: nat, l: nat, h: nat)
    requires Mul(l, h) == BASE && l > 0 && h > 0
    ensures Mul(a, l) == a / h * BASE + Mul(a % h, l) && Mul(a % h, l) + l <= BASE
    ensures a < BASE ==> a / h < l
  {
    var q, r := a / h, a % h;
    DivMod(a, h);
    assert (q * h + r) * l == q * (l * h) + r * l by {
      Distribute(q, h, r, l);
      assert h * l == l * h;
    }
    MulLe(r + 1, h, l);
    assert (r + 1) * l == r * l + l && h * l == l * h;
    MulLe(l, q, h);
  }

  /** A shifted limb is its two parts; the lower one leaves room for what comes over from below. */
  lemma LimbShift(a: nat, s: nat)
    requires a < BASE && s <= 32
    ensures Mul(a, Pow2(s)) == Over(a, s) * BASE + Up(a, s) && Over(a, s) < Pow2(s)
    ensures Up(a, s) + Pow2(s) <= BASE && Up(a, s) == Mul(a % Pow2(32 - s), Pow2(s))
  {
    hide Mul, Pow2;
    var l, h := Pow2(s), Pow2(32 - s);
    HalvesOfLimb(s);
    LimbAlgebra(a, l, h);
    DivideBack(a / h, Mul(a % h, l), BASE);
  }

  function FromBelow(a: seq<nat>, n: nat, s: nat): nat
    requires n <= |a| && s <= 32
  {
    if n == 0 then 0 else Over(a[n - 1], s)
  }

  /** The limbs of a number shifted left by `k` limbs and `s` bits. */
  ghost predicate ShiftedLeft(a: seq<nat>, r: seq<nat>, k: nat, s: nat)
    requires s <= 32
  {
    |r| == |a| && forall m :: 0 <= m < |a| ==> r[m] == if m < k then 0 else Up(a[m - k], s) + FromBelow(a, m - k, s)
  }

  lemma {:induction false} LeftPart(a: seq<nat>, r: seq<nat>, k: nat, s: nat, n: nat)
    requires AreLimbs(a) && s <= 32 && ShiftedLeft(a, r, k, s) && k + n <= |a|
    ensures Val(r[..k + n]) + Mul(FromBelow(a, n, s), Weight(k + n)) == Mul(Mul(Val(a[..n]), Pow2(s)), Weight(k))
    decreases n
  {
    hide Weight, Pow2, Mul, Over, Up;
    if n == 0 {
      LeftStart(r, k, Weight(k), Pow2(s));
    } else {
      var i := n - 1;
      LeftPart(a, r, k, s, i);
      ValNextMul(r, k + i);
      ValNextMul(a, i);
      WeightNext(k + i);
      WeightAddMul(i, k);
      LimbShift(a[i], s);
      LeftAlgebra(Val(r[..k + i]), FromBelow(a, i, s), Up(a[i], s), Over(a[i], s), a[i], Pow2(s), Val(a[..i]),
          Weight(i), Weight(k));
    }
  }

  lemma WeightAddMul(m: nat, n: nat)
    ensures Weight(m + n) == Mul(Weight(m), Weight(n))
  {
    WeightAdd(m, n);
  }

  lemma LeftStart(r: seq<nat>, k: nat, w: nat, l: nat)
    requires k <= |r| && forall m :: 0 <= m < k ==> r[m] == 0
    ensures Val(r[..k + 0]) == 0 && Mul(0, w) == 0 && Mul(0, l) == 0
  {
    ValOfZeroes(r[..k]);
  }

  lemma LeftAlgebra(low: nat, below: nat, up: nat, over: nat, a: nat, l: nat, v: nat, wi: nat, wk: nat)
    requires low + Mul(below, Mul(wi, wk)) == Mul(Mul(v, l), wk) && Mul(a, l) == over * BASE + up
    ensures low + Mul(up + below, Mul(wi, wk)) + Mul(over, BASE * Mul(wi, wk)) == Mul(Mul(v + Mul(a, wi), l), wk)
  {
    CarryOver(low, below, up + below, over, a * l, v * l * wk, wi * wk);
    assert (v + a * wi) * l * wk == v * l * wk + (a * l) * (wi * wk);
  }

  /** Shifting left multiplies, modulo the capacity. */
  lemma LeftVal(a: seq<nat>, r: seq<nat>, k: nat, s: nat)
    requires AreLimbs(a) && s <= 32 && ShiftedLeft(a, r, k, s)
    ensures Val(r) == Mul(Val(a), Pow2(32 * k + s)) % Weight(|a|)
  {
    hide Weight, Pow2, Mul, Val;
    var n := |a|;
    Pow2Add(32 * k, s);
    Pow2Weight(k);
    if k <= n {
      LeftPart(a, r, k, s, n - k);
      assert r[..k + (n - k)] == r;
      ValSplitMul(a, n - k);
      WeightAddMul(n - k, k);
      var lost := FromBelow(a, n - k, s) + Mul(Val(a[n - k..]), Pow2(s));
      LostAlgebra(Val(r), FromBelow(a, n - k, s), Val(a[..n - k]), Val(a[n - k..]), Pow2(s), Weight(n - k), Weight(k));
      LeftLimbs(a, r, k, s);
      ValBound(r);
      WrapsMul(Val(r), lost, Mul(Val(a), Mul(Weight(k), Pow2(s))), Weight(n));
    } else {
      LeftOut(r);
      WeightAddMul(n, k - n);
      AllLost(Val(a), Weight(n), Weight(k - n), Pow2(s));
    }
  }

  lemma LeftOut(r: seq<nat>)
    requires Zeroes(r)
    ensures Val(r) == 0
  {
    ValOfZeroes(r);
  }

  lemma AllLost(v: nat, w: nat, x: nat, l: nat)
    requires w > 0
    ensures Mul(v, Mul(Mul(w, x), l)) % w == 0
  {
    assert v * ((w * x) * l) == (v * x * l) * w;
    DivideBack(v * x * l, 0, w);
  }

  lemma LostAlgebra(r: nat, c: nat, lo: nat, hi: nat, l: nat, wn: nat, wk: nat)
    requires r + Mul(c, Mul(wn, wk)) == Mul(Mul(lo, l), wk)
    ensures r + Mul(c + Mul(hi, l), Mul(wn, wk)) == Mul(lo + Mul(wn, hi), Mul(wk, l))
  {
    assert (lo + wn * hi) * (wk * l) == (lo * l) * wk + (hi * l) * (wn * wk);
    assert (c + hi * l) * (wn * wk) == c * (wn * wk) + (hi * l) * (wn * wk);
  }

  lemma LeftLimbs(a: seq<nat>, r: seq<nat>, k: nat, s: nat)
    requires AreLimbs(a) && s <= 32 && ShiftedLeft(a, r, k, s)
    ensures AreLimbs(r)
  {
    hide Pow2, Mul, Over, Up;
    forall m | 0 <= m < |r|
      ensures r[m] < BASE
    {
      if m >= k {
        LimbShift(a[m - k], s);
        if m > k {
          LimbShift(a[m - k - 1], s);
        }
      }
    }
  }

  /** Limb `m` when the lowest `i` limbs of `a` have been put into place. */
  ghost function LeftLimb(a: seq<nat>, k: nat, s: nat, i: nat, m: nat): nat
    requires s < 32 && i <= |a|
  {
    if m < k || m - k > i then 0
    else if m - k == i then FromBelow(a, i, s)
    else Up(a[m - k], s) + FromBelow(a, m - k, s)
  }

  ghost predicate PartLeft(a: seq<nat>, r: seq<nat>, k: nat, s: nat, i: nat)
    requires s < 32 && i <= |a|
  {
    |r| == |a| && forall m :: 0 <= m < |a| ==> r[m] == LeftLimb(a, k, s, i, m)
  }

  lemma LeftStep(a: seq<nat>, r: seq<nat>, k: nat, s: nat, i: nat)
    requires AreLimbs(a) && s < 32 && i < |a| && PartLeft(a, r, k, s, i)
    ensures var r1 := if i + k + 1 < |a| && s != 0 then r[i + k + 1 := Or(r[i + k + 1], Over(a[i], s))] else r;
            var r2 := if i + k < |a| then r1[i + k := Or(r1[i + k], Up(a[i], s))] else r1;
            PartLeft(a, r2, k, s, i + 1)
  {
    hide Pow2, Mul, Over, Up;
    assert Or(0, Over(a[i], s)) == Over(a[i], s);
    NothingOver(a[i]);
    if i + k < |a| {
      LimbShift(a[i], s);
      BelowFits(a, i, s);
      OrAdds(FromBelow(a, i, s), a[i] % Pow2(32 - s), s);
    }
  }

  lemma NothingOver(a: nat)
    requires a < BASE
    ensures Over(a, 0) == 0
  {
    Pow2Limb();
    hide Pow2;
    DivideBack(0, a, BASE);
  }

  lemma BelowFits(a: seq<nat>, i: nat, s: nat)
    requires AreLimbs(a) && s < 32 && i <= |a|
    ensures FromBelow(a, i, s) < Pow2(s)
  {
    hide Pow2, Mul, Over, Up;
    if i > 0 {
      LimbShift(a[i - 1], s);
    }
  }

  // ---------- shifting right ----------

  function Down(a: nat, s: nat): nat {
    a / Pow2(s)
  }

  function FromAbove(a: seq<nat>, n: nat, s: nat): nat
    requires s <= 32
  {
    if n < |a| then Up(a[n], 32 - s) else 0
  }

  /** The limbs of a number shifted right by `k` limbs and `s` bits. */
  ghost predicate ShiftedRight(a: seq<nat>, r: seq<nat>, k: nat, s: nat)
    requires s <= 32
  {
    |r| == |a| && forall m :: 0 <= m < |a| ==>
        r[m] == if m + k >= |a| then 0 else Down(a[m + k], s) + FromAbove(a, m + k + 1, s)
  }

  /** The bits of limb `n` that go over into the limb below. */
  function LowBits(a: seq<nat>, n: nat, l: nat): nat
    requires l > 0
  {
    if n < |a| then a[n] % l else 0
  }

  lemma FromAboveIs(a: seq<nat>, n: nat, s: nat)
    requires AreLimbs(a) && s <= 32
    ensures Mul(FromAbove(a, n, s), Pow2(s)) == LowBits(a, n, Pow2(s)) * BASE
  {
    hide Pow2;
    var l, h := Pow2(s), Pow2(32 - s);
    if n < |a| {
      LimbShift(a[n], 32 - s);
      HalvesOfLimb(s);
      assert Mul(a[n] % l, h) * l == (a[n] % l) * (l * h);
    }
  }

  lemma {:induction false} RightPart(a: seq<nat>, r: seq<nat>, k: nat, s: nat, n: nat)
    requires AreLimbs(a) && s <= 32 && ShiftedRight(a, r, k, s) && k + n <= |a| && k < |a|
    ensures Mul(Val(r[..n]), Pow2(s)) + LowBits(a, k, Pow2(s)) ==
              Val(a[k..k + n]) + Mul(LowBits(a, k + n, Pow2(s)), Weight(n))
    decreases n
  {
    hide Weight, Pow2, Mul, Up;
    var l := Pow2(s);
    if n == 0 {
      WeightNext(0);
      NoPart(a, r, k, l);
    } else {
      var i := n - 1;
      RightPart(a, r, k, s, i);
      ValNextMul(r, i);
      ValNextMul(a[k..k + n], i);
      assert a[k..k + n][..i] == a[k..k + i] && a[k..k + n][..n] == a[k..k + n];
      WeightNext(i);
      FromAboveIs(a, k + n, s);
      RightAlgebra(Val(r[..i]), a[k + i], l, FromAbove(a, k + n, s), LowBits(a, k, l), LowBits(a, k + n, l),
          Val(a[k..k + i]), Weight(i));
    }
  }

  lemma NoPart(a: seq<nat>, r: seq<nat>, k: nat, l: nat)
    requires k < |a| && l > 0
    ensures Val(r[..0]) == 0 && Val(a[k..k + 0]) == 0 && Mul(0, l) == 0 && Mul(LowBits(a, k, l), 1) == LowBits(a, k, l)
  {
  }

  lemma RightAlgebra(rv: nat, x: nat, l: nat, above: nat, first: nat, next: nat, v: nat, w: nat)
    requires l > 0 && Mul(rv, l) + first == v + Mul(x % l, w) && Mul(above, l) == next * BASE
    ensures Mul(rv + Mul(x / l + above, w), l) + first == v + Mul(x, w) + Mul(next, BASE * w)
  {
    DivMod(x, l);
    var q, r := x / l, x % l;
    assert (rv + (q + above) * w) * l == rv * l + (q * l) * w + (above * l) * w;
    assert (q * l) * w + r * w == x * w;
    assert (next * BASE) * w == next * (BASE * w);
  }

  /** Shifting right divides, rounding down. */
  lemma RightVal(a: seq<nat>, r: seq<nat>, k: nat, s: nat)
    requires AreLimbs(a) && s <= 32 && ShiftedRight(a, r, k, s)
    ensures Val(r) == Val(a) / Pow2(32 * k + s)
  {
    hide Weight, Pow2, Mul, Val;
    var n, l := |a|, Pow2(s);
    Pow2Add(32 * k, s);
    Pow2Weight(k);
    if k < n {
      RightPart(a, r, k, s, n - k);
      assert a[k..k + (n - k)] == a[k..];
      ValSplitMul(r, n - k);
      LeftOut(r[n - k..]);
      ValSplitMul(a, k);
      ValBound(a[..k]);
      QuotientAlgebra(Val(r[..n - k]), LowBits(a, k, l), Val(a[k..]), Val(a[..k]), Weight(k), l, Weight(n - k));
    } else {
      LeftOut(r);
      ValBound(a);
      WeightAddMul(n, k - n);
      SmallQuotient(Val(a), Weight(n), Weight(k - n), l);
    }
  }

  lemma QuotientAlgebra(rv: nat, rem: nat, v: nat, lo: nat, w: nat, l: nat, z: nat)
    requires w > 0 && l > 0 && rem < l && lo < w && Mul(rv, l) + rem == v + Mul(0, z)
    ensures Mul(w, l) > 0 && rv + Mul(z, 0) == (lo + Mul(w, v)) / Mul(w, l)
  {
    RemainderAlgebra(rv, rem, v, lo, w, l, z);
    hide Mul;
    DivideBackMul(rv, lo + Mul(w, rem), Mul(w, l));
  }

  lemma RemainderAlgebra(rv: nat, rem: nat, v: nat, lo: nat, w: nat, l: nat, z: nat)
    requires w > 0 && l > 0 && rem < l && lo < w && Mul(rv, l) + rem == v + Mul(0, z)
    ensures lo + Mul(w, v) == Mul(rv, Mul(w, l)) + (lo + Mul(w, rem)) && lo + Mul(w, rem) < Mul(w, l) && Mul(z, 0) == 0
  {
    assert w * (rv * l + rem) == rv * (w * l) + w * rem;
    MulLe(rem + 1, l, w);
    assert (rem + 1) * w == w * rem + w && l * w == w * l;
  }

  lemma DivideBackMul(q: nat, r: nat, m: nat)
    requires r < m
    ensures (Mul(q, m) + r) / m == q
  {
    DivideBack(q, r, m);
  }

  lemma SmallQuotient(v: nat, w: nat, x: nat, l: nat)
    requires v < w && x > 0 && l > 0
    ensures Mul(Mul(w, x), l) > 0 && v / Mul(Mul(w, x), l) == 0
  {
    MulLe(1, x, w);
    MulLe(1, l, w * x);
    assert (w * x) * l == l * (w * x) && x * w == w * x;
    DivideBack(0, v, (w * x) * l);
  }

  lemma RightLimbs(a: seq<nat>, r: seq<nat>, k: nat, s: nat)
    requires AreLimbs(a) && s <= 32 && ShiftedRight(a, r, k, s)
    ensures AreLimbs(r)
  {
    hide Pow2, Mul, Up;
    forall m | 0 <= m < |r|
      ensures r[m] < BASE
    {
      if m + k < |a| {
        DownFits(a[m + k], s);
        if m + k + 1 < |a| {
          LimbShift(a[m + k + 1], 32 - s);
        }
      }
    }
  }

  lemma DownFits(a: nat, s: nat)
    requires a < BASE && s <= 32
    ensures 0 <= Down(a, s) < Pow2(32 - s) <= BASE
  {
    hide Pow2;
    HalvesOfLimb(s);
    var l, h := Pow2(s), Pow2(32 - s);
    assert Mul(l, h) == Mul(h, l);
    LimbAlgebra(a, h, l);
    MulLe(1, l, h);
  }

  /** Limb `m` when the lowest `i` limbs of `a` have been put into place. */
  ghost function RightLimb(a: seq<nat>, k: nat, s: nat, i: nat, m: nat): nat
    requires s < 32 && i <= |a|
  {
    if m + k >= i then 0 else Down(a[m + k], s) + (if m + k + 1 < i then FromAbove(a, m + k + 1, s) else 0)
  }

  ghost predicate PartRight(a: seq<nat>, r: seq<nat>, k: nat, s: nat, i: nat)
    requires s < 32 && i <= |a|
  {
    |r| == |a| && forall m :: 0 <= m < |a| ==> r[m] == RightLimb(a, k, s, i, m)
  }

  lemma RightStep(a: seq<nat>, r: seq<nat>, k: nat, s: nat, i: nat)
    requires AreLimbs(a) && s < 32 && i < |a| && PartRight(a, r, k, s, i)
    ensures var r1 := if i - k - 1 >= 0 && s != 0 then r[i - k - 1 := Or(r[i - k - 1], Up(a[i], 32 - s))] else r;
            var r2 := if i - k >= 0 then r1[i - k := Or(r1[i - k], Down(a[i], s))] else r1;
            PartRight(a, r2, k, s, i + 1)
  {
    hide Pow2, Mul, Down, Up, Or;
    OrZero(Down(a[i], s));
    NothingAbove(a[i]);
    if i - k - 1 >= 0 {
      RightOr(a[i - 1], a[i], s);
    }
  }

  lemma OrZero(x: nat)
    ensures Or(0, x) == x
  {
  }

  lemma RightOr(low: nat, high: nat, s: nat)
    requires low < BASE && high < BASE && s < 32
    ensures Or(Down(low, s), Up(high, 32 - s)) == Down(low, s) + Up(high, 32 - s)
  {
    hide Pow2, Mul, Down, Up, Or;
    var t := 32 - s;
    LimbShift(high, t);
    DownFits(low, s);
    OrAdds(Down(low, s), high % Pow2(32 - t), t);
  }

  lemma NothingAbove(a: nat)
    ensures Up(a, 32) == 0
  {
    Pow2Limb();
    DivideBack(a, 0, BASE);
  }

  // ---------- counting bits and comparing ----------

  /** The position of the highest bit plus one, or zero. */
  function BitCount(v: nat): nat {
    if v == 0 then 0 else 1 + BitCount(v / 2)
  }

  lemma {:induction false} BitCountIs(v: nat, n: nat)
    requires n > 0 && Pow2(n - 1) <= v < Pow2(n)
    ensures BitCount(v) == n
    decreases n
  {
    Pow2Next(n - 1);
    if n > 1 {
      Pow2Next(n - 2);
      hide Pow2;
      BitCountIs(v / 2, n - 1);
    }
  }

  lemma {:induction false} BitCountBounds(v: nat)
    ensures v < Pow2(BitCount(v)) && (v > 0 ==> BitCount(v) > 0 && Pow2(BitCount(v) - 1) <= v)
    decreases v
  {
    hide Pow2;
    Pow2Next(0);
    if v > 0 {
      BitCountBounds(v / 2);
      Pow2Next(BitCount(v / 2));
      if v / 2 > 0 {
        Pow2Next(BitCount(v / 2) - 1);
      }
    }
  }

  /** The highest limb that differs decides. */
  lemma HighestDecides(a: seq<nat>, b: seq<nat>, i: nat)
    requires |a| == |b| && i < |a| && AreLimbs(a) && AreLimbs(b) && a[i + 1..] == b[i + 1..] && a[i] < b[i]
    ensures Val(a) < Val(b)
  {
    hide Weight, Val, Mul;
    ValSplitMul(a, i + 1);
    ValSplitMul(b, i + 1);
    ValNextMul(a, i);
    ValNextMul(b, i);
    ValBound(a[..i]);
    LimbDecides(a[i], b[i], Weight(i));
  }

  lemma LimbDecides(x: nat, y: nat, w: nat)
    requires x < y
    ensures Mul(x, w) + w <= Mul(y, w)
  {
    MulLe(x + 1, y, w);
    assert (x + 1) * w == x * w + w;
  }

  lemma ValUpdate(s: seq<nat>, m: nat, add: nat)
    requires m < |s|
    ensures Val(s[m := s[m] + add]) == Val(s) + Mul(add, Weight(m))
  {
    hide Weight, Val, Mul;
    var r := s[m := s[m] + add];
    ValSplitMul(s, m + 1);
    ValSplitMul(r, m + 1);
    ValNextMul(s, m);
    ValNextMul(r, m);
    assert r[..m] == s[..m] && r[m + 1..] == s[m + 1..];
    MulSum(s[m], add, Weight(m));
  }

  lemma MulSum(a: nat, b: nat, w: nat)
    ensures Mul(a + b, w) == Mul(a, w) + Mul(b, w)
  {
  }
}
