/**
The field of 1024 elements, in which the generator of Bech32 has its roots: ten bits, of which multiplication by the
powers of one element is a linear map. No power of it below the 1023rd fixes an element other than zero.
 */
module Bech32Field {
  import opened Bech32Checksum

  // ---------- linear maps ----------

  datatype Quint = Quint(a: bv32, b: bv32, c: bv32, d: bv32, e: bv32)

  function Add(b: bool, k: bv32, r: bv32): bv32 {
    if b then Plus(k, r) else r
  }

  function Has(x: bv32, bit: bv32): bool {
    x & bit != 0
  }

  /** The sum of those of five numbers whose bits are set in `x`. */
  function Five(x: bv32, k: Quint): bv32 {
    Add(Has(x, 1), k.a, Add(Has(x, 2), k.b, Add(Has(x, 4), k.c, Add(Has(x, 8), k.d, Add(Has(x, 16), k.e, 0)))))
  }

  /** A linear map, given by the images of the five lower and the five higher bits. */
  datatype Map = Map(low: Quint, high: Quint)

  function High(x: bv32): bv32 {
    x >> 5
  }

  function Apply(m: Map, x: bv32): bv32 {
    Plus(Five(x, m.low), Five(High(x), m.high))
  }

  lemma AddIsLinear(b: bool, c: bool, k: bv32, r: bv32, s: bv32)
    ensures Add(b != c, k, Plus(r, s)) == Plus(Add(b, k, r), Add(c, k, s))
  {
    hide Plus;
    PlusSwap(k, r, k, s);
    PlusZero(k);
    PlusZero(Plus(r, s));
    PlusAssoc(k, r, s);
    PlusComm(k, s);
    PlusAssoc(r, s, k);
    PlusComm(Plus(r, s), k);
  }

  lemma FiveIsLinear(x: bv32, y: bv32, k: Quint)
    ensures Five(Plus(x, y), k) == Plus(Five(x, k), Five(y, k))
  {
    hide Plus, Add;
    BitOfPlus(x, y, 1);
    BitOfPlus(x, y, 2);
    BitOfPlus(x, y, 4);
    BitOfPlus(x, y, 8);
    BitOfPlus(x, y, 16);
    PlusZero(0);
    var x5, y5 := Add(Has(x, 16), k.e, 0), Add(Has(y, 16), k.e, 0);
    AddIsLinear(Has(x, 16), Has(y, 16), k.e, 0, 0);
    var x4, y4 := Add(Has(x, 8), k.d, x5), Add(Has(y, 8), k.d, y5);
    AddIsLinear(Has(x, 8), Has(y, 8), k.d, x5, y5);
    var x3, y3 := Add(Has(x, 4), k.c, x4), Add(Has(y, 4), k.c, y4);
    AddIsLinear(Has(x, 4), Has(y, 4), k.c, x4, y4);
    var x2, y2 := Add(Has(x, 2), k.b, x3), Add(Has(y, 2), k.b, y3);
    AddIsLinear(Has(x, 2), Has(y, 2), k.b, x3, y3);
    AddIsLinear(Has(x, 1), Has(y, 1), k.a, x2, y2);
  }

  lemma HighIsLinear(x: bv32, y: bv32)
    ensures High(Plus(x, y)) == Plus(High(x), High(y))
  {
  }

  lemma ApplyIsLinear(m: Map, x: bv32, y: bv32)
    ensures Apply(m, Plus(x, y)) == Plus(Apply(m, x), Apply(m, y))
  {
    hide Plus, Five, High;
    HighIsLinear(x, y);
    FiveIsLinear(x, y, m.low);
    FiveIsLinear(High(x), High(y), m.high);
    PlusSwap(Five(x, m.low), Five(y, m.low), Five(High(x), m.high), Five(High(y), m.high));
  }

  lemma ApplyZero(m: Map)
    ensures Apply(m, 0) == 0
  {
  }

  lemma ApplyAdd(m: Map, b: bool, k: bv32, r: bv32)
    ensures Apply(m, Add(b, k, r)) == Add(b, Apply(m, k), Apply(m, r))
  {
    hide Apply, Plus;
    ApplyIsLinear(m, k, r);
  }

  /** The images of five numbers. */
  function Each(m: Map, k: Quint): Quint {
    Quint(Apply(m, k.a), Apply(m, k.b), Apply(m, k.c), Apply(m, k.d), Apply(m, k.e))
  }

  lemma ApplyFive(m: Map, x: bv32, k: Quint)
    ensures Apply(m, Five(x, k)) == Five(x, Each(m, k))
  {
    hide Add, Apply, Has;
    var x5 := Add(Has(x, 16), k.e, 0);
    var x4 := Add(Has(x, 8), k.d, x5);
    var x3 := Add(Has(x, 4), k.c, x4);
    var x2 := Add(Has(x, 2), k.b, x3);
    ApplyZero(m);
    ApplyAdd(m, Has(x, 16), k.e, 0);
    ApplyAdd(m, Has(x, 8), k.d, x5);
    ApplyAdd(m, Has(x, 4), k.c, x4);
    ApplyAdd(m, Has(x, 2), k.b, x3);
    ApplyAdd(m, Has(x, 1), k.a, x2);
  }

  /** First `n`, then `m`. */
  function After(m: Map, n: Map): Map {
    Map(Each(m, n.low), Each(m, n.high))
  }

  lemma ApplyAfter(m: Map, n: Map, x: bv32)
    ensures Apply(After(m, n), x) == Apply(m, Apply(n, x))
  {
    hide Plus, Five, High, Each;
    ApplyIsLinear(m, Five(x, n.low), Five(High(x), n.high));
    ApplyFive(m, x, n.low);
    ApplyFive(m, High(x), n.high);
  }

  // ---------- powers of one element ----------

  const ELEMENTS: bv32 := 1024

  /** Multiplication by the element whose powers are all elements but zero. */
  const ALPHA := Map(Quint(2, 4, 8, 16, 32), Quint(64, 128, 256, 512, 291))

  /** Multiplication by its n-th power. */
  function Turn(n: nat, x: bv32): bv32 {
    if n == 0 then x else Apply(ALPHA, Turn(n - 1, x))
  }

  lemma {:induction false} TurnAdd(m: nat, n: nat, x: bv32)
    ensures Turn(m + n, x) == Turn(m, Turn(n, x))
  {
    hide Apply;
    if m > 0 {
      TurnAdd(m - 1, n, x);
    }
  }

  lemma {:induction false} TurnIsLinear(n: nat, x: bv32, y: bv32)
    ensures Turn(n, Plus(x, y)) == Plus(Turn(n, x), Turn(n, y))
  {
    hide Apply, Plus;
    if n > 0 {
      TurnIsLinear(n - 1, x, y);
      ApplyIsLinear(ALPHA, Turn(n - 1, x), Turn(n - 1, y));
    }
  }

  lemma AddRange(b: bool, k: bv32, r: bv32)
    requires k < ELEMENTS && r < ELEMENTS
    ensures Add(b, k, r) < ELEMENTS
  {
    hide Plus;
    SumRange(k, r);
  }

  ghost predicate SmallQuint(k: Quint) {
    k.a < ELEMENTS && k.b < ELEMENTS && k.c < ELEMENTS && k.d < ELEMENTS && k.e < ELEMENTS
  }

  lemma FiveRange(x: bv32, k: Quint)
    requires SmallQuint(k)
    ensures Five(x, k) < ELEMENTS
  {
    hide Add, Has;
    var x5 := Add(Has(x, 16), k.e, 0);
    var x4 := Add(Has(x, 8), k.d, x5);
    var x3 := Add(Has(x, 4), k.c, x4);
    var x2 := Add(Has(x, 2), k.b, x3);
    AddRange(Has(x, 16), k.e, 0);
    AddRange(Has(x, 8), k.d, x5);
    AddRange(Has(x, 4), k.c, x4);
    AddRange(Has(x, 2), k.b, x3);
    AddRange(Has(x, 1), k.a, x2);
  }

  lemma AlphaRange(x: bv32)
    ensures Apply(ALPHA, x) < ELEMENTS
  {
    hide Five, High, Plus;
    FiveRange(x, ALPHA.low);
    FiveRange(High(x), ALPHA.high);
    SumRange(Five(x, ALPHA.low), Five(High(x), ALPHA.high));
  }

  lemma {:induction false} TurnRange(n: nat, x: bv32)
    requires x < ELEMENTS
    ensures Turn(n, x) < ELEMENTS
  {
    hide Apply;
    if n > 0 {
      AlphaRange(Turn(n - 1, x));
    }
  }

  lemma AlphaKernel(x: bv32)
    requires x < ELEMENTS && Apply(ALPHA, x) == 0
    ensures x == 0
  {
  }

  lemma SumRange(x: bv32, y: bv32)
    requires x < ELEMENTS && y < ELEMENTS
    ensures Plus(x, y) < ELEMENTS
  {
  }

  lemma AlphaIsInjective(x: bv32, y: bv32)
    requires x < ELEMENTS && y < ELEMENTS && Apply(ALPHA, x) == Apply(ALPHA, y)
    ensures x == y
  {
    hide Apply, Plus;
    ApplyIsLinear(ALPHA, x, y);
    PlusZero(Apply(ALPHA, x));
    SumRange(x, y);
    AlphaKernel(Plus(x, y));
    SameByXor(x, y);
  }

  lemma {:induction false} TurnIsInjective(n: nat, x: bv32, y: bv32)
    requires x < ELEMENTS && y < ELEMENTS && Turn(n, x) == Turn(n, y)
    ensures x == y
  {
    hide Apply;
    if n > 0 {
      TurnRange(n - 1, x);
      TurnRange(n - 1, y);
      AlphaIsInjective(Turn(n - 1, x), Turn(n - 1, y));
      TurnIsInjective(n - 1, x, y);
    }
  }

  /** A map is multiplication by the n-th power. */
  ghost predicate IsPower(m: Map, n: nat) {
    forall x: bv32 :: Turn(n, x) == Apply(m, x)
  }

  lemma FirstPower()
    ensures IsPower(ALPHA, 1)
  {
    hide Apply;
    forall x: bv32
      ensures Turn(1, x) == Apply(ALPHA, x)
    {
      assert Turn(0, x) == x;
    }
  }

  lemma PowerSum(m: Map, i: nat, n: Map, j: nat)
    requires IsPower(m, i) && IsPower(n, j)
    ensures IsPower(After(m, n), i + j)
  {
    hide Apply, After, Turn;
    forall x: bv32
      ensures Turn(i + j, x) == Apply(After(m, n), x)
    {
      TurnAdd(i, j, x);
      ApplyAfter(m, n, x);
    }
  }

  const ALPHA2 := Map(Quint(4, 8, 16, 32, 64), Quint(128, 256, 512, 291, 582))
  const ALPHA4 := Map(Quint(16, 32, 64, 128, 256), Quint(512, 291, 582, 431, 862))
  const ALPHA8 := Map(Quint(256, 512, 291, 582, 431), Quint(862, 927, 541, 281, 562))
  const ALPHA16 := Map(Quint(281, 562, 327, 654, 63), Quint(126, 252, 504, 1008, 707))
  const ALPHA24 := Map(Quint(1008, 707, 165, 330, 660), Quint(11, 22, 44, 88, 176))
  const ALPHA25 := Map(Quint(707, 165, 330, 660, 11), Quint(22, 44, 88, 176, 352))
  const ALPHA26 := Map(Quint(165, 330, 660, 11, 22), Quint(44, 88, 176, 352, 704))
  const ALPHA32 := Map(Quint(88, 176, 352, 704, 163), Quint(326, 652, 59, 118, 236))
  const ALPHA33 := Map(Quint(176, 352, 704, 163, 326), Quint(652, 59, 118, 236, 472))
  const ALPHA64 := Map(Quint(239, 478, 956, 603, 405), Quint(810, 887, 973, 697, 81))
  const ALPHA128 := Map(Quint(838, 943, 637, 473, 946), Quint(583, 429, 858, 919, 525))
  const ALPHA256 := Map(Quint(485, 970, 695, 77, 154), Quint(308, 616, 499, 998, 751))
  const ALPHA512 := Map(Quint(539, 277, 554, 375, 750), Quint(255, 510, 1020, 731, 149))
  const ALPHA80 := Map(Quint(408, 816, 835, 933, 617), Quint(497, 994, 743, 237, 474))
  const ALPHA88 := Map(Quint(237, 474, 948, 587, 437), Quint(874, 1015, 717, 185, 370))
  const ALPHA92 := Map(Quint(437, 874, 1015, 717, 185), Quint(370, 740, 235, 470, 940))
  const ALPHA93 := Map(Quint(874, 1015, 717, 185, 370), Quint(740, 235, 470, 940, 635))
  const ALPHA320 := Map(Quint(634, 471, 942, 639, 477), Quint(954, 599, 397, 794, 791))
  const ALPHA336 := Map(Quint(706, 167, 334, 668, 27), Quint(54, 108, 216, 432, 864))
  const ALPHA340 := Map(Quint(27, 54, 108, 216, 432), Quint(864, 995, 741, 233, 466))
  const ALPHA341 := Map(Quint(54, 108, 216, 432, 864), Quint(995, 741, 233, 466, 932))

  lemma Doubled()
    ensures After(ALPHA, ALPHA) == ALPHA2 && After(ALPHA2, ALPHA2) == ALPHA4
  {
  }

  lemma DoubledTo16()
    ensures After(ALPHA4, ALPHA4) == ALPHA8 && After(ALPHA8, ALPHA8) == ALPHA16
  {
  }

  lemma DoubledTo64()
    ensures After(ALPHA16, ALPHA16) == ALPHA32 && After(ALPHA32, ALPHA32) == ALPHA64
  {
  }

  lemma DoubledTo256()
    ensures After(ALPHA64, ALPHA64) == ALPHA128 && After(ALPHA128, ALPHA128) == ALPHA256
  {
  }

  lemma DoubledTo1024()
    ensures After(ALPHA256, ALPHA256) == ALPHA512 && After(ALPHA512, ALPHA512) == ALPHA
  {
  }

  /** The 1024th power is the first again. */
  lemma PowersOfTwo()
    ensures IsPower(ALPHA, 1) && IsPower(ALPHA2, 2) && IsPower(ALPHA4, 4) && IsPower(ALPHA8, 8)
    ensures IsPower(ALPHA16, 16) && IsPower(ALPHA32, 32) && IsPower(ALPHA64, 64) && IsPower(ALPHA256, 256)
    ensures IsPower(ALPHA, 1024)
  {
    hide After, IsPower;
    FirstPower();
    Doubled();
    DoubledTo16();
    DoubledTo64();
    DoubledTo256();
    DoubledTo1024();
    PowerSum(ALPHA, 1, ALPHA, 1);
    PowerSum(ALPHA2, 2, ALPHA2, 2);
    PowerSum(ALPHA4, 4, ALPHA4, 4);
    PowerSum(ALPHA8, 8, ALPHA8, 8);
    PowerSum(ALPHA16, 16, ALPHA16, 16);
    PowerSum(ALPHA32, 32, ALPHA32, 32);
    PowerSum(ALPHA64, 64, ALPHA64, 64);
    PowerSum(ALPHA128, 128, ALPHA128, 128);
    PowerSum(ALPHA256, 256, ALPHA256, 256);
    PowerSum(ALPHA512, 512, ALPHA512, 512);
  }

  lemma SumTo26()
    ensures After(ALPHA16, ALPHA8) == ALPHA24 && After(ALPHA, ALPHA24) == ALPHA25
    ensures After(ALPHA, ALPHA25) == ALPHA26
  {
  }

  /** The powers of which the generator's roots are multiplications. */
  lemma RootPowers()
    ensures IsPower(ALPHA24, 24) && IsPower(ALPHA25, 25) && IsPower(ALPHA26, 26)
  {
    hide After, IsPower;
    PowersOfTwo();
    SumTo26();
    PowerSum(ALPHA16, 16, ALPHA8, 8);
    PowerSum(ALPHA, 1, ALPHA24, 24);
    PowerSum(ALPHA, 1, ALPHA25, 25);
  }

  lemma SumTo88()
    ensures After(ALPHA64, ALPHA16) == ALPHA80 && After(ALPHA80, ALPHA8) == ALPHA88
  {
  }

  lemma SumTo93()
    ensures After(ALPHA88, ALPHA4) == ALPHA92 && After(ALPHA, ALPHA92) == ALPHA93
  {
  }

  lemma SumTo336()
    ensures After(ALPHA256, ALPHA64) == ALPHA320 && After(ALPHA320, ALPHA16) == ALPHA336
  {
  }

  lemma SumTo341()
    ensures After(ALPHA336, ALPHA4) == ALPHA340 && After(ALPHA, ALPHA340) == ALPHA341
  {
  }

  lemma SumTo33()
    ensures After(ALPHA32, ALPHA) == ALPHA33
  {
  }

  lemma LargePowers()
    ensures IsPower(ALPHA33, 33) && IsPower(ALPHA93, 93) && IsPower(ALPHA341, 341)
  {
    hide After, IsPower;
    PowersOfTwo();
    SumTo33();
    SumTo88();
    SumTo93();
    SumTo336();
    SumTo341();
    PowerSum(ALPHA32, 32, ALPHA, 1);
    PowerSum(ALPHA64, 64, ALPHA16, 16);
    PowerSum(ALPHA80, 80, ALPHA8, 8);
    PowerSum(ALPHA88, 88, ALPHA4, 4);
    PowerSum(ALPHA, 1, ALPHA92, 92);
    PowerSum(ALPHA256, 256, ALPHA64, 64);
    PowerSum(ALPHA320, 320, ALPHA16, 16);
    PowerSum(ALPHA336, 336, ALPHA4, 4);
    PowerSum(ALPHA, 1, ALPHA340, 340);
  }

  // ---------- no power fixes an element ----------

  lemma NotFixed33(x: bv32)
    requires x < ELEMENTS && Apply(ALPHA33, x) == x
    ensures x == 0
  {
  }

  lemma NotFixed93(x: bv32)
    requires x < ELEMENTS && Apply(ALPHA93, x) == x
    ensures x == 0
  {
  }

  lemma NotFixed341(x: bv32)
    requires x < ELEMENTS && Apply(ALPHA341, x) == x
    ensures x == 0
  {
  }

  ghost predicate Fixes(n: nat, x: bv32) {
    Turn(n, x) == x
  }

  lemma LargeFixNone(x: bv32)
    requires x < ELEMENTS && (Fixes(33, x) || Fixes(93, x) || Fixes(341, x))
    ensures x == 0
  {
    hide Apply, Turn;
    LargePowers();
    if Fixes(33, x) {
      NotFixed33(x);
    } else if Fixes(93, x) {
      NotFixed93(x);
    } else {
      NotFixed341(x);
    }
  }

  lemma FixesLess(m: nat, n: nat, x: bv32)
    requires x < ELEMENTS && Fixes(m, x) && Fixes(n, x) && n <= m
    ensures Fixes(m - n, x)
  {
    hide Turn;
    TurnAdd(n, m - n, x);
    TurnRange(m - n, x);
    TurnIsInjective(n, Turn(m - n, x), x);
  }

  lemma {:induction false} FixesTimes(n: nat, k: nat, x: bv32)
    requires Fixes(n, x)
    ensures Fixes(k * n, x)
  {
    hide Apply;
    if k > 0 {
      FixesTimes(n, k - 1, x);
      TurnAdd(n, (k - 1) * n, x);
      assert k * n == n + (k - 1) * n;
    }
  }

  lemma FixedByAll(x: bv32)
    requires x < ELEMENTS
    ensures Fixes(1023, x)
  {
    hide Turn, Apply;
    PowersOfTwo();
    assert Turn(1024, x) == Turn(1, x);
    TurnAdd(1, 1023, x);
    TurnRange(1023, x);
    TurnIsInjective(1, Turn(1023, x), x);
  }

  /** What two powers fix is fixed by that of their greatest common divisor. */
  lemma {:induction false} FixesCommon(m: nat, n: nat, x: bv32) returns (g: nat, i: nat, j: nat)
    requires x < ELEMENTS && Fixes(m, x) && Fixes(n, x) && m > 0
    ensures Fixes(g, x) && m == g * i && n == g * j
    decreases m + n
  {
    hide Fixes;
    if n == 0 {
      g, i, j := m, 1, 0;
    } else if n <= m {
      FixesLess(m, n, x);
      if m == n {
        g, i, j := m, 1, 1;
      } else {
        g, i, j := FixesCommon(m - n, n, x);
        assert g * i + g * j == g * (i + j);
        i := i + j;
      }
    } else {
      FixesLess(n, m, x);
      g, i, j := FixesCommon(m, n - m, x);
      assert g * i + g * j == g * (i + j);
      j := i + j;
    }
  }

  lemma SmallDivisors(q: nat)
    requires 1 <= q <= 32 && 1023 % q == 0
    ensures q == 1 || q == 3 || q == 11 || q == 31
  {
    assert 1023 % 2 == 1 && 1023 % 4 == 3 && 1023 % 5 == 3 && 1023 % 6 == 3 && 1023 % 7 == 1 && 1023 % 8 == 7;
    assert 1023 % 9 == 6 && 1023 % 10 == 3 && 1023 % 12 == 3 && 1023 % 13 == 9 && 1023 % 14 == 1 && 1023 % 15 == 3;
    assert 1023 % 16 == 15 && 1023 % 17 == 3 && 1023 % 18 == 15 && 1023 % 19 == 16 && 1023 % 20 == 3;
    assert 1023 % 21 == 15 && 1023 % 22 == 11 && 1023 % 23 == 11 && 1023 % 24 == 15 && 1023 % 25 == 23;
    assert 1023 % 26 == 9 && 1023 % 27 == 24 && 1023 % 28 == 15 && 1023 % 29 == 8 && 1023 % 30 == 3;
    assert 1023 % 32 == 31;
  }

  /** A divisor other than one has one of the prime factors of 1023. */
  lemma LargeDivisors(g: nat, i: nat)
    requires g * i == 1023 && i > 1
    ensures i % 3 == 0 || i % 11 == 0 || i % 31 == 0
  {
    if i <= 32 {
      assert 1023 % i == 0 by {
        TimesDivides(g, i);
      }
      SmallDivisors(i);
    } else {
      SmallerFactor(g, i);
      assert 1023 % g == 0 by {
        TimesDivides(i, g);
      }
      SmallDivisors(g);
    }
  }

  lemma SmallerFactor(g: nat, i: nat)
    requires g * i == 1023 && i > 32
    ensures g <= 32
  {
    assert g * 33 <= g * i;
  }

  lemma TimesDivides(a: nat, b: nat)
    requires b > 0 && a * b == 1023
    ensures 1023 % b == 0
  {
    assert (a * b) % b == 0;
  }

  /** A power below the 1023rd fixes zero only. */
  lemma TurnsAreFree(n: nat, x: bv32)
    requires 0 < n < 1023 && x < ELEMENTS && Turn(n, x) == x
    ensures x == 0
  {
    hide Turn;
    FixedByAll(x);
    var g, i, j := FixesCommon(1023, n, x);
    BelowAll(g, i, j, n);
    LargeDivisors(g, i);
    if i % 3 == 0 {
      Cofactor(g, i, 3, 341);
      FixesTimes(g, i / 3, x);
    } else if i % 11 == 0 {
      Cofactor(g, i, 11, 93);
      FixesTimes(g, i / 11, x);
    } else {
      Cofactor(g, i, 31, 33);
      FixesTimes(g, i / 31, x);
    }
    LargeFixNone(x);
  }

  lemma BelowAll(g: nat, i: nat, j: nat, n: nat)
    requires g * i == 1023 && g * j == n && 0 < n < 1023
    ensures i > 1
  {
    assert g > 0 && j > 0;
    assert g <= n;
  }

  lemma Cofactor(g: nat, i: nat, prime: nat, rest: nat)
    requires g * i == 1023 && prime > 0 && i % prime == 0 && prime * rest == 1023
    ensures (i / prime) * g == rest
  {
    var k := i / prime;
    assert i == prime * k;
    assert prime * (k * g) == prime * rest;
  }
}
