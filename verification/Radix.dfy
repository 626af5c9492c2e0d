/** Numbers as digits to a base, most significant first. */
module Radix {
  // ---------- products and quotients ----------

  function Max(x: int, y: int): int {
    if x < y then y else x
  }

  lemma MulLe(a: nat, b: nat, c: nat)
    ensures a <= b ==> a * c <= b * c
  {
    if a <= b {
      assert b * c == a * c + (b - a) * c;
    }
  }

  lemma DivMod(v: nat, m: nat)
    requires m > 0
    ensures 0 <= v / m && 0 <= v % m < m && v == v / m * m + v % m
  {
  }

  lemma QuotientAtMost(v: nat, m: nat)
    requires m > 0
    ensures 0 <= v / m <= v
  {
    DivMod(v, m);
    MulLe(1, m, v / m);
  }

  /** Quotient and remainder are determined by their equation. */
  lemma DivideBack(q: nat, r: nat, base: nat)
    requires r < base
    ensures (q * base + r) / base == q && (q * base + r) % base == r
  {
    var v := q * base + r;
    var d := v / base;
    assert v == d * base + v % base;
    MulLe(d + 1, q, base);
    MulLe(q + 1, d, base);
    assert (d + 1) * base == d * base + base && (q + 1) * base == q * base + base;
  }

  lemma QuotientShrinks(v: nat, base: nat)
    requires v > 0 && base >= 2
    ensures 0 <= v / base < v && v == (v / base) * base + v % base && (v < base ==> v / base == 0 && v % base == v)
  {
    var d := v / base;
    assert v == d * base + v % base;
    MulLe(2, base, d);
    if v < base {
      DivideBack(0, v, base);
    }
  }

  // ---------- powers ----------

  function Pow(b: nat, k: nat): nat {
    if k == 0 then 1 else b * Pow(b, k - 1)
  }

  lemma {:induction false} PowPositive(b: nat, k: nat)
    requires b > 0
    ensures Pow(b, k) > 0
  {
    if k > 0 {
      PowPositive(b, k - 1);
    }
  }

  lemma {:induction false} PowAdd(b: nat, m: nat, n: nat)
    ensures Pow(b, m + n) == Pow(b, m) * Pow(b, n)
  {
    if m > 0 {
      PowAdd(b, m - 1, n);
      assert Pow(b, m) * Pow(b, n) == b * (Pow(b, m - 1) * Pow(b, n));
    }
  }

  lemma {:induction false} PowGrows(b: nat, m: nat, n: nat)
    requires b > 0 && m <= n
    ensures Pow(b, m) <= Pow(b, n)
    decreases n - m
  {
    if m < n {
      PowGrows(b, m, n - 1);
      assert b * Pow(b, n - 1) >= Pow(b, n - 1);
    }
  }

  /** Powers of two. */
  function Pow2(k: nat): (r: nat)
    ensures r > 0
  {
    PowPositive(2, k);
    Pow(2, k)
  }

  lemma Pow2Next(k: nat)
    ensures Pow2(k + 1) == 2 * Pow2(k) && Pow2(0) == 1
  {
  }

  lemma Pow2Grows(m: nat, n: nat)
    requires m <= n
    ensures Pow2(m) <= Pow2(n)
  {
    PowGrows(2, m, n);
  }

  // ---------- digits ----------

  ghost predicate Below(s: seq<nat>, base: nat) {
    forall i :: 0 <= i < |s| ==> s[i] < base
  }

  function Value(s: seq<nat>, base: nat): nat {
    if s == [] then 0 else Value(s[..|s| - 1], base) * base + s[|s| - 1]
  }

  lemma {:induction false} ValueConcat(a: seq<nat>, b: seq<nat>, base: nat)
    ensures Value(a + b, base) == Value(a, base) * Pow(base, |b|) + Value(b, base)
    decreases |b|
  {
    if b == [] {
      assert a + b == a;
    } else {
      var rest := b[..|b| - 1];
      assert (a + b)[..|a + b| - 1] == a + rest;
      ValueConcat(a, rest, base);
      assert Value(a, base) * Pow(base, |rest|) * base == Value(a, base) * (base * Pow(base, |rest|));
      assert (Value(a, base) * Pow(base, |rest|) + Value(rest, base)) * base
          == Value(a, base) * Pow(base, |rest|) * base + Value(rest, base) * base;
    }
  }

  lemma {:induction false} ValueBound(s: seq<nat>, base: nat)
    requires Below(s, base)
    ensures Value(s, base) < Pow(base, |s|)
  {
    if s != [] {
      var rest := s[..|s| - 1];
      ValueBound(rest, base);
      MulLe(Value(rest, base) + 1, Pow(base, |rest|), base);
      assert (Value(rest, base) + 1) * base == Value(rest, base) * base + base;
    }
  }

  ghost predicate Zeroes(s: seq<nat>) {
    forall i :: 0 <= i < |s| ==> s[i] == 0
  }

  lemma {:induction false} ValueOfZeroes(s: seq<nat>, base: nat)
    requires Zeroes(s)
    ensures Value(s, base) == 0
  {
    if s != [] {
      ValueOfZeroes(s[..|s| - 1], base);
    }
  }

  lemma ValueSkipsZeroes(z: seq<nat>, s: seq<nat>, base: nat)
    requires Zeroes(z)
    ensures Value(z + s, base) == Value(s, base)
  {
    ValueConcat(z, s, base);
    ValueOfZeroes(z, base);
  }

  /** The digits of a number, without leading zeroes. */
  function Digits(v: nat, base: nat): (r: seq<nat>)
    requires base >= 2
    ensures Below(r, base) && (r != [] ==> r[0] > 0)
    decreases v
  {
    if v == 0 then [] else
      QuotientShrinks(v, base);
      Digits(v / base, base) + [v % base]
  }

  lemma {:induction false} ValueOfDigits(v: nat, base: nat)
    requires base >= 2
    ensures Value(Digits(v, base), base) == v
    decreases v
  {
    if v > 0 {
      QuotientShrinks(v, base);
      ValueOfDigits(v / base, base);
      var d := Digits(v, base);
      assert d[..|d| - 1] == Digits(v / base, base);
    }
  }

  /** Digits without leading zeroes are the digits of their value. */
  lemma {:induction false} DigitsOfValue(s: seq<nat>, base: nat)
    requires base >= 2 && Below(s, base) && (s != [] ==> s[0] > 0)
    ensures Digits(Value(s, base), base) == s
  {
    if s != [] {
      var rest, last := s[..|s| - 1], s[|s| - 1];
      DigitsOfValue(rest, base);
      ValuePositive(s, base);
      DivideBack(Value(rest, base), last, base);
      assert s == rest + [last];
    }
  }

  lemma {:induction false} ValuePositive(s: seq<nat>, base: nat)
    requires base >= 2 && s != [] && s[0] > 0
    ensures Value(s, base) > 0
  {
    if |s| > 1 {
      ValuePositive(s[..|s| - 1], base);
      assert Value(s[..|s| - 1], base) * base >= 2;
    }
  }
}
