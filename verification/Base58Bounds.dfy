/** The sizes of the buffers of the base-58 coder: they hold every number that can be converted. */
module Base58Bounds {
  import opened Radix

  lemma MulMono(a: nat, b: nat, c: nat, d: nat)
    requires a <= b && c <= d
    ensures a * c <= b * d
  {
    MulLe(a, b, c);
    MulLe(c, d, b);
    assert c * b == b * c && d * b == b * d;
  }

  /** A bound on one period gives one on any number of periods. */
  lemma {:induction false} PowPeriods(a: nat, p: nat, b: nat, q: nat, k: nat)
    requires Pow(a, p) <= Pow(b, q)
    ensures Pow(a, p * k) <= Pow(b, q * k)
    decreases k
  {
    if k > 0 {
      PowPeriods(a, p, b, q, k - 1);
      assert p * k == p * (k - 1) + p && q * k == q * (k - 1) + q;
      PowAdd(a, p * (k - 1), p);
      PowAdd(b, q * (k - 1), q);
      MulMono(Pow(a, p * (k - 1)), Pow(b, q * (k - 1)), Pow(a, p), Pow(b, q));
    }
  }

  lemma PowProduct(a: nat, m: nat, n: nat, b: nat, s: nat, t: nat, u: nat)
    requires b > 0 && Pow(a, m) <= Pow(b, s) && Pow(a, n) <= Pow(b, t) && s + t <= u
    ensures Pow(a, m + n) <= Pow(b, u)
  {
    PowAdd(a, m, n);
    PowAdd(b, s, t);
    MulMono(Pow(a, m), Pow(b, s), Pow(a, n), Pow(b, t));
    PowGrows(b, s + t, u);
  }

  // ---------- the witnesses ----------

  lemma EncodePeriod()
    ensures Pow(256, 8) <= Pow(58, 11)
  {
  }

  lemma Powers58()
    ensures Pow(58, 7) == 2207984167552 && Pow(58, 8) == 128063081718016
    ensures Pow(58, 15) == 282761256881297307761016832 && Pow(58, 16) == 16400152899115243850138976256
    ensures Pow(58, 32) == 268965015114358137726910587140455987105619365599731777536
    ensures Pow(58, 64) == Pow(58, 32) * Pow(58, 32)
  {
    assert Pow(58, 7) == 2207984167552 && Pow(58, 8) == 128063081718016;
    PowAdd(58, 7, 8);
    PowAdd(58, 8, 8);
    PowAdd(58, 16, 16);
    PowAdd(58, 32, 32);
  }

  lemma Powers256()
    ensures Pow(256, 3) == 16777216 && Pow(256, 4) == 4294967296 && Pow(256, 8) == 18446744073709551616
    ensures Pow(256, 11) == 309485009821345068724781056
    ensures Pow(256, 16) == 340282366920938463463374607431768211456
    ensures Pow(256, 32) == 115792089237316195423570985008687907853269984665640564039457584007913129639936
  {
    assert Pow(256, 3) == 16777216 && Pow(256, 4) == 4294967296;
    PowAdd(256, 4, 4);
    PowAdd(256, 8, 3);
    PowAdd(256, 8, 8);
    PowAdd(256, 16, 16);
  }

  lemma DecodePeriod()
    ensures Pow(58, 71) <= Pow(256, 52)
  {
    hide Pow;
    Powers58();
    Powers256();
    PowAdd(58, 64, 7);
    PowAdd(256, 32, 16);
    PowAdd(256, 48, 4);
  }

  lemma ShortPeriod()
    ensures Pow(58, 15) <= Pow(256, 11)
  {
    hide Pow;
    Powers58();
    Powers256();
  }

  lemma EncodeRest(r: nat)
    requires r < 8
    ensures Pow(256, r) <= Pow(58, r * 138 / 100 + 1)
  {
    assert Pow(256, 0) <= Pow(58, 1) && Pow(256, 1) <= Pow(58, 2) && Pow(256, 2) <= Pow(58, 3)
        && Pow(256, 3) <= Pow(58, 5);
    assert Pow(256, 4) <= Pow(58, 6) && Pow(256, 5) <= Pow(58, 7) && Pow(256, 6) <= Pow(58, 9)
        && Pow(256, 7) <= Pow(58, 10);
  }

  lemma DecodeRest(b: nat)
    requires b < 15
    ensures Pow(58, b) <= Pow(256, b * 733 / 1000 + 1)
  {
    hide Pow;
    if b < 8 {
      ShortRest(b);
    } else {
      EightDigits();
      if b > 8 {
        ShortRest(b - 8);
        PowProduct(58, 8, b - 8, 256, 6, (b - 8) * 733 / 1000 + 1, b * 733 / 1000 + 1);
      }
    }
  }

  lemma ShortRest(b: nat)
    requires b < 8
    ensures Pow(58, b) <= Pow(256, b * 733 / 1000 + 1)
  {
    assert Pow(58, 0) <= Pow(256, 1) && Pow(58, 1) <= Pow(256, 1);
    assert Pow(58, 2) <= Pow(256, 2) && Pow(58, 3) <= Pow(256, 3);
    assert Pow(58, 4) <= Pow(256, 3) && Pow(58, 5) <= Pow(256, 4);
    assert Pow(58, 6) <= Pow(256, 5) && Pow(58, 7) <= Pow(256, 6);
  }

  lemma EightDigits()
    ensures Pow(58, 8) <= Pow(256, 6)
  {
  }

  lemma Exponent(a: nat, b: nat)
    requires a < 5 && b < 15
    ensures 11 * a + (if b == 0 then 0 else b * 733 / 1000 + 1) <= (15 * a + b) * 733 / 1000 + 1
  {
  }

  lemma DecodeResidue(r: nat)
    requires r < 71
    ensures Pow(58, r) <= Pow(256, r * 733 / 1000 + 1)
  {
    hide Pow;
    var a, b := r / 15, r % 15;
    Exponent(a, b);
    ShortPeriod();
    PowPeriods(58, 15, 256, 11, a);
    if b == 0 {
      PowGrows(256, 11 * a, r * 733 / 1000 + 1);
    } else {
      DecodeRest(b);
      PowProduct(58, 15 * a, b, 256, 11 * a, b * 733 / 1000 + 1, r * 733 / 1000 + 1);
    }
  }

  // ---------- the bounds ----------

  /** A buffer of n * 138 / 100 + 1 digits to base 58 holds every number of n bytes. */
  lemma EncodeFits(n: nat)
    ensures Pow(256, n) <= Pow(58, n * 138 / 100 + 1)
  {
    hide Pow;
    var q, r := n / 8, n % 8;
    EncodePeriod();
    PowPeriods(256, 8, 58, 11, q);
    EncodeRest(r);
    PowProduct(256, 8 * q, r, 58, 11 * q, r * 138 / 100 + 1, n * 138 / 100 + 1);
  }

  /** A buffer of n * 733 / 1000 + 1 bytes holds every number of n digits to base 58. */
  lemma DecodeFits(n: nat)
    ensures Pow(58, n) <= Pow(256, n * 733 / 1000 + 1)
  {
    hide Pow;
    var q, r := n / 71, n % 71;
    DecodePeriod();
    PowPeriods(58, 71, 256, 52, q);
    DecodeResidue(r);
    PowProduct(58, 71 * q, r, 256, 52 * q, r * 733 / 1000 + 1, n * 733 / 1000 + 1);
  }
}
