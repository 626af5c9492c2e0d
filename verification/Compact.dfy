/** The compact form of difficulty targets: an exponent to base 256, a sign bit and a 23-bit mantissa. */
module Compact {
  import opened Radix
  import opened Limbs
  import opened LimbBits

  const SIGN := 0x80_0000
  const EXPONENT := 0x100_0000

  /** Powers of 256. */
  function P(k: nat): (r: nat)
    ensures r > 0
  {
    PowPositive(256, k);
    Pow(256, k)
  }

  lemma PNext(k: nat)
    ensures P(k + 1) == 256 * P(k) && P(0) == 1
  {
  }

  lemma PAdd(m: nat, n: nat)
    ensures P(m + n) == Mul(P(m), P(n))
  {
    PowAdd(256, m, n);
  }

  lemma PGrows(m: nat, n: nat)
    requires m <= n
    ensures P(m) <= P(n)
  {
    PowGrows(256, m, n);
  }

  lemma {:induction false} PIsPow2(k: nat)
    ensures P(k) == Pow2(8 * k)
  {
    hide P, Pow2, Mul;
    PNext(0);
    Pow2Next(0);
    if k > 0 {
      PIsPow2(k - 1);
      PNext(k - 1);
      Pow2Add(8, 8 * (k - 1));
      Pow2Byte();
      MulIs(256, Pow2(8 * (k - 1)));
    }
  }

  lemma Pow2Byte()
    ensures Pow2(8) == 256
  {
    assert Pow(2, 8) == 256;
  }

  // ---------- decoding ----------

  function Size(c: nat): nat {
    c / EXPONENT
  }

  /** The mantissa; a small exponent cuts off its low bytes. */
  function Word(c: nat): nat {
    if Size(c) <= 3 then
      DivMod(c % SIGN, P(3 - Size(c)));
      c % SIGN / P(3 - Size(c))
    else c % SIGN
  }

  /** The magnitude that a code stands for, however large. */
  function Expand(c: nat): nat {
    if Size(c) <= 3 then Word(c) else Mul(Word(c), P(Size(c) - 3))
  }

  predicate Negative(c: nat) {
    Word(c) != 0 && c / SIGN % 2 == 1
  }

  predicate Overflow(c: nat) {
    Word(c) != 0 && (Size(c) > 34 || (Word(c) > 0xff && Size(c) > 33) || (Word(c) > 0xffff && Size(c) > 32))
  }

  lemma WordFits(c: nat)
    ensures Word(c) < SIGN && (Size(c) <= 3 ==> Expand(c) < SIGN)
  {
    hide P, Mul;
    if Size(c) <= 3 {
      QuotientAtMost(c % SIGN, P(3 - Size(c)));
    }
  }

  /** The overflow flag tells exactly that the magnitude needs more than 256 bits. */
  lemma OverflowIsExact(c: nat)
    ensures Overflow(c) <==> Expand(c) >= P(32)
  {
    hide P, Mul;
    WordFits(c);
    var w, s := Word(c), Size(c);
    if s <= 3 {
      PGrows(3, 32);
      ThreeBytes();
    } else if w > 0 {
      var n := if w > 0xffff then 3 else if w > 0xff then 2 else 1;
      ThreeBytes();
      PAdd(n - 1, s - 3);
      PAdd(n, s - 3);
      Between(P(n - 1), w, P(n), P(s - 3));
      if n + s - 3 <= 32 {
        PGrows(n + s - 3, 32);
      } else {
        PGrows(32, n - 1 + s - 3);
      }
    } else {
      MulIs(0, P(s - 3));
    }
  }

  lemma ThreeBytes()
    ensures P(0) == 1 && P(1) == 256 && P(2) == 65536 && P(3) == 0x100_0000
  {
  }

  lemma Between(lo: nat, w: nat, hi: nat, p: nat)
    requires lo <= w < hi && p > 0
    ensures Mul(lo, p) <= Mul(w, p) < Mul(hi, p)
  {
    MulLe(lo, w, p);
    MulLe(w + 1, hi, p);
    assert (w + 1) * p == w * p + p;
  }

  // ---------- encoding ----------

  function ByteCount(x: nat): nat {
    (BitCount(x) + 7) / 8
  }

  lemma ByteCountBounds(x: nat)
    requires x > 0
    ensures ByteCount(x) > 0 && P(ByteCount(x) - 1) <= x < P(ByteCount(x))
  {
    hide P, Pow2;
    BitCountBounds(x);
    var n, k := BitCount(x), ByteCount(x);
    PIsPow2(k - 1);
    PIsPow2(k);
    Pow2Grows(8 * (k - 1), n - 1);
    Pow2Grows(n, 8 * k);
  }

  lemma ByteCountIs(x: nat, k: nat)
    requires k > 0 && P(k - 1) <= x < P(k)
    ensures ByteCount(x) == k
  {
    hide P, Pow2;
    ByteCountBounds(x);
    var n := ByteCount(x);
    if n < k {
      PGrows(n, k - 1);
      assert false;
    }
    if n > k {
      PGrows(k, n - 1);
      assert false;
    }
  }

  /** The leading three bytes of a number, left aligned. */
  function Leading(x: nat): nat {
    hide P, Mul;
    var s := ByteCount(x);
    if s <= 3 then Mul(x, P(3 - s)) else QuotientAtMost(x, P(s - 3)); x / P(s - 3)
  }

  /** Exponent and mantissa of the code; a set sign bit moves the mantissa down by a byte. */
  function CodeSize(x: nat): nat {
    if Leading(x) >= SIGN then ByteCount(x) + 1 else ByteCount(x)
  }

  function CodeWord(x: nat): nat {
    if Leading(x) >= SIGN then Leading(x) / 256 else Leading(x)
  }

  function Code(x: nat, negative: bool): nat {
    CodeSize(x) * EXPONENT + CodeWord(x) + (if negative && CodeWord(x) != 0 then SIGN else 0)
  }

  lemma LeadingFits(x: nat)
    ensures Leading(x) < EXPONENT && CodeWord(x) < SIGN
    ensures ByteCount(x) > 3 ==> Leading(x) >= 65536
  {
    hide P, Mul, BitCount;
    var s := ByteCount(x);
    ThreeBytes();
    if x == 0 {
      NoBytes();
      MulIs(0, P(3));
    } else {
      ByteCountBounds(x);
      if s <= 3 {
        PAdd(s, 3 - s);
        Between(x, x, P(s), P(3 - s));
      } else {
        PAdd(3, s - 3);
        PAdd(2, s - 3);
        QuotientBetween(x, 65536, P(3), P(s - 3));
      }
    }
  }

  lemma NoBytes()
    ensures ByteCount(0) == 0
  {
  }

  lemma QuotientBetween(x: nat, lo: nat, hi: nat, p: nat)
    requires p > 0 && Mul(lo, p) <= x < Mul(hi, p)
    ensures lo <= x / p < hi
  {
    DivMod(x, p);
    MulLe(x / p + 1, lo, p);
    MulLe(hi, x / p, p);
    assert (x / p + 1) * p == x / p * p + p;
  }

  /** The parts of a code are those that it was made of. */
  lemma CodeParts(x: nat, negative: bool)
    ensures var c := Code(x, negative);
            Size(c) == CodeSize(x) && c % SIGN == CodeWord(x) && (c / SIGN % 2 == 1 <==> negative && CodeWord(x) != 0)
  {
    hide CodeSize, CodeWord;
    LeadingFits(x);
    PartsOf(CodeSize(x), CodeWord(x), negative && CodeWord(x) != 0);
  }

  lemma PartsOf(s: nat, w: nat, sign: bool)
    requires w < SIGN
    ensures var c := s * EXPONENT + w + (if sign then SIGN else 0);
            c / EXPONENT == s && c % SIGN == w && (c / SIGN % 2 == 1 <==> sign)
  {
  }

  lemma DivDiv(x: nat, a: nat, b: nat)
    requires a > 0 && b > 0
    ensures Mul(a, b) > 0 && x / a / b == x / Mul(a, b)
  {
    var q, r := x / a, x % a;
    var u, v := q / b, q % b;
    DivMod(x, a);
    DivMod(q, b);
    assert x == u * (a * b) + (v * a + r) by {
      assert (u * b + v) * a == u * (a * b) + v * a;
    }
    MulLe(v + 1, b, a);
    assert (v + 1) * a == v * a + a && b * a == a * b;
    DivideBack(u, v * a + r, a * b);
  }

  /** A short number is kept whole; of a longer one the mantissa keeps the leading bytes, at least 15 bits of them. */
  lemma CodeKeeps(x: nat)
    ensures var s, w := CodeSize(x), CodeWord(x);
            if s <= 3 then w / P(3 - s) == x else w == x / P(s - 3) && w >= 0x8000
  {
    hide P, Mul, BitCount;
    var n := ByteCount(x);
    LeadingFits(x);
    ThreeBytes();
    if n <= 3 {
      MulBack(x, P(3 - n));
      if Leading(x) >= SIGN && n <= 2 {
        PNext(2 - n);
        MulBack(x, P(2 - n));
        MulByte(x, P(2 - n));
      } else {
        MulIs(x, 1);
      }
    } else if Leading(x) >= SIGN {
      DivDiv(x, P(n - 3), 256);
      PNext(n - 3);
      MulIs(P(n - 3), 256);
    }
  }

  lemma MulBack(x: nat, p: nat)
    requires p > 0
    ensures Mul(x, p) / p == x
  {
    DivideBack(x, 0, p);
  }

  lemma MulByte(x: nat, p: nat)
    ensures Mul(x, 256 * p) / 256 == Mul(x, p)
  {
    assert x * (256 * p) == (x * p) * 256;
    DivideBack(x * p, 0, 256);
  }

  /** What a code of `x` stands for: `x` without its low bytes, with the sign asked for. */
  lemma DecodeOfCode(x: nat, negative: bool)
    ensures var c, s := Code(x, negative), CodeSize(x);
            && Expand(c) == (if s <= 3 then x else Mul(x / P(s - 3), P(s - 3)))
            && Expand(c) <= x
            && (Negative(c) <==> negative && x != 0)
  {
    hide P, Mul, CodeSize, CodeWord, Code;
    var c, s := Code(x, negative), CodeSize(x);
    CodeParts(x, negative);
    CodeKeeps(x);
    if s <= 3 {
      QuotientAtMost(CodeWord(x), P(3 - s));
      if x == 0 {
        ZeroWord();
      }
    } else {
      DivMod(x, P(s - 3));
      MulIs(x / P(s - 3), P(s - 3));
      QuotientAtMost(x, P(s - 3));
    }
  }

  lemma ZeroWord()
    ensures CodeWord(0) == 0
  {
    NoBytes();
  }

  /** No code stands for a number between the decoded one and `x`: decoding rounds down to the nearest. */
  lemma NearestBelow(x: nat, negative: bool, e: nat)
    requires Expand(e) <= x
    ensures Expand(e) <= Expand(Code(x, negative))
  {
    hide P, Mul, CodeSize, CodeWord, Code, Word;
    var s, t, w := CodeSize(x), Size(e), Word(e);
    DecodeOfCode(x, negative);
    CodeKeeps(x);
    WordFits(e);
    if s > 3 {
      if t >= s {
        PAdd(t - s, s - 3);
        MultipleBelow(x, w, P(t - s), P(s - 3));
      } else {
        var k := if t <= 3 then 0 else t - 3;
        PNext(0);
        MulIs(w, 1);
        PGrows(k, s - 4);
        PNext(s - 4);
        SmallerExponent(w, P(k), P(s - 4), x / P(s - 3));
      }
    }
  }

  lemma MultipleBelow(x: nat, w: nat, a: nat, p: nat)
    requires p > 0 && Mul(w, Mul(a, p)) <= x
    ensures Mul(w, Mul(a, p)) <= Mul(x / p, p)
  {
    DivMod(x, p);
    assert w * (a * p) == (w * a) * p;
    MulLe(x / p + 1, w * a, p);
    MulLe(w * a, x / p, p);
    assert (x / p + 1) * p == x / p * p + p;
  }

  lemma SmallerExponent(w: nat, a: nat, p: nat, q: nat)
    requires w < SIGN && a <= p && q >= 0x8000
    ensures Mul(w, a) <= Mul(q, 256 * p)
  {
    MulLe(a, p, w);
    MulLe(w, SIGN, p);
    MulLe(0x8000, q, 256 * p);
    assert w * a == a * w && p * w == w * p;
  }

  /** Decoding and encoding again gives the same code. */
  lemma CodeIsStable(x: nat, negative: bool)
    ensures Code(Expand(Code(x, negative)), negative) == Code(x, negative)
  {
    hide P, Mul, Code, BitCount, Expand;
    var s, w := CodeSize(x), CodeWord(x);
    var y := Expand(Code(x, negative));
    DecodeOfCode(x, negative);
    CodeKeeps(x);
    LeadingFits(x);
    if s > 3 {
      ThreeBytes();
      PNext(s - 4);
      PAdd(2, s - 3);
      PAdd(3, s - 3);
      PAdd(2, s - 4);
      PAdd(1, s - 3);
      if w >= 65536 {
        Between(65536, w, P(3), P(s - 3));
        ByteCountIs(y, s);
        MulBack(w, P(s - 3));
      } else {
        Between(256, w, 65536, P(s - 3));
        ByteCountIs(y, s - 1);
        LowerLeading(y, w, s);
      }
      SameCode(x, y, negative);
    }
  }

  lemma LowerLeading(y: nat, w: nat, s: nat)
    requires s > 3 && 0x8000 <= w < SIGN && y == Mul(w, P(s - 3)) && ByteCount(y) == s - 1
    ensures CodeSize(y) == s && CodeWord(y) == w
  {
    hide P, BitCount, ByteCount;
    PNext(s - 4);
    assert w * (256 * P(s - 4)) == (w * 256) * P(s - 4);
    if s == 4 {
      PNext(0);
    } else {
      DivideBack(w * 256, 0, P(s - 4));
    }
    DivideBack(w, 0, 256);
  }

  lemma SameCode(x: nat, y: nat, negative: bool)
    requires CodeSize(x) == CodeSize(y) && CodeWord(x) == CodeWord(y)
    ensures Code(x, negative) == Code(y, negative)
  {
  }

  /** The rounding is monotone. */
  lemma CodeIsMonotone(x: nat, y: nat, negative: bool)
    requires x <= y
    ensures Expand(Code(x, negative)) <= Expand(Code(y, negative))
  {
    hide Expand, Code;
    DecodeOfCode(x, negative);
    NearestBelow(y, negative, Code(x, negative));
  }

  /** The code of a 256-bit number has no overflow, and fits into 32 bits. */
  lemma CodeFits(x: nat, negative: bool)
    requires x < P(32)
    ensures !Overflow(Code(x, negative)) && CodeSize(x) <= 33 && Code(x, negative) < 0x1_0000_0000
  {
    hide P, Expand, BitCount, Overflow;
    DecodeOfCode(x, negative);
    OverflowIsExact(Code(x, negative));
    LeadingFits(x);
    if x == 0 {
      NoBytes();
    } else {
      ByteCountBounds(x);
      if ByteCount(x) > 32 {
        PGrows(32, ByteCount(x) - 1);
        assert false;
      }
    }
  }
}
