/** Errors that stand anywhere in a Bech32 text: up to three of them within 1023 symbols are always detected. */
module Bech32Errors {
  import opened Bech32Checksum
  import opened Bech32Field
  import Sets

  // ---------- remainders as elements of the field ----------

  /** The images of the five bits of a symbol. */
  const SYMBOL := Quint(1, 14, 84, 856, 191)

  /** A symbol as an element of the larger field; higher bits are ignored. */
  function Embed(v: bv32): bv32 {
    Five(v, SYMBOL)
  }

  /** The value of the lowest `k` symbols of a remainder, as a polynomial, at the element that `m` multiplies by. */
  function Eval(m: Map, c: bv32, k: nat): bv32 {
    if k == 0 then 0 else Plus(Apply(m, Eval(m, High(c), k - 1)), Embed(c))
  }

  lemma {:induction false} EvalIsLinear(m: Map, c: bv32, d: bv32, k: nat)
    ensures Eval(m, Plus(c, d), k) == Plus(Eval(m, c, k), Eval(m, d, k))
    decreases k
  {
    hide Plus, Apply, High, Five;
    if k == 0 {
      PlusZero(0);
    } else {
      HighIsLinear(c, d);
      EvalIsLinear(m, High(c), High(d), k - 1);
      ApplyIsLinear(m, Eval(m, High(c), k - 1), Eval(m, High(d), k - 1));
      FiveIsLinear(c, d, SYMBOL);
      PlusSwap(Apply(m, Eval(m, High(c), k - 1)), Apply(m, Eval(m, High(d), k - 1)), Embed(c), Embed(d));
    }
  }

  lemma EvalAdd(m: Map, b: bool, c: bv32, r: bv32, k: nat)
    ensures Eval(m, Add(b, c, r), k) == Add(b, Eval(m, c, k), Eval(m, r, k))
  {
    hide Eval, Plus;
    EvalIsLinear(m, c, r, k);
  }

  lemma {:induction false} EvalZero(m: Map, k: nat)
    ensures Eval(m, 0, k) == 0
  {
    hide Apply, Plus;
    if k > 0 {
      HighZero();
      EvalZero(m, k - 1);
      ApplyZero(m);
      EmbedZero();
      PlusZero(0);
    }
  }

  lemma HighZero()
    ensures High(0) == 0
  {
  }

  lemma EmbedZero()
    ensures Embed(0) == 0
  {
  }

  function EvalEach(m: Map, q: Quint, k: nat): Quint {
    Quint(Eval(m, q.a, k), Eval(m, q.b, k), Eval(m, q.c, k), Eval(m, q.d, k), Eval(m, q.e, k))
  }

  lemma EvalFive(m: Map, x: bv32, q: Quint, k: nat)
    ensures Eval(m, Five(x, q), k) == Five(x, EvalEach(m, q, k))
  {
    hide Add, Has, Eval;
    var x5 := Add(Has(x, 16), q.e, 0);
    var x4 := Add(Has(x, 8), q.d, x5);
    var x3 := Add(Has(x, 4), q.c, x4);
    var x2 := Add(Has(x, 2), q.b, x3);
    EvalZero(m, k);
    EvalAdd(m, Has(x, 16), q.e, 0, k);
    EvalAdd(m, Has(x, 8), q.d, x5, k);
    EvalAdd(m, Has(x, 4), q.c, x4, k);
    EvalAdd(m, Has(x, 2), q.b, x3, k);
    EvalAdd(m, Has(x, 1), q.a, x2, k);
  }

  // ---------- the roots of the generator ----------

  /** `m` applied `k` times. */
  function Times(m: Map, k: nat, x: bv32): bv32 {
    if k == 0 then x else Apply(m, Times(m, k - 1, x))
  }

  /** The sixth power of the element is what the generator reduces it to. */
  ghost predicate IsRoot(m: Map) {
    forall t: bv32 :: t < 32 ==> Eval(m, Fold(t), 6) == Times(m, 6, Embed(t))
  }

  const GENERATOR := Quint(0x3b6a57b2, 0x26508e6d, 0x1ea119fa, 0x3d4233dd, 0x2a1462b3)
  const GENERATOR1 := Quint(0x1db52bd, 0x1328473, 0xf508cf, 0x1ea119e, 0x150a315)
  const GENERATOR2 := Quint(0xeda95, 0x99423, 0x7a846, 0xf508c, 0xa8518)
  const GENERATOR3 := Quint(0x76d4, 0x4ca1, 0x3d42, 0x7a84, 0x5428)
  const GENERATOR4 := Quint(0x3b6, 0x265, 0x1ea, 0x3d4, 0x2a1)
  const GENERATOR5 := Quint(0x1d, 0x13, 0xf, 0x1e, 0x15)
  const NOTHING := Quint(0, 0, 0, 0, 0)

  lemma AddIsTerm(x: bv32, bit: bv32, k: bv32, r: bv32)
    ensures Add(Has(x, bit), k, r) == Plus(Term(x, bit, k), r)
  {
    hide Plus;
    PlusZero(r);
  }

  lemma FoldIsFive(t: bv32)
    ensures Fold(t) == Five(t, GENERATOR)
  {
    hide Plus, Term, Add;
    var a, b, c := Term(t, 1, GENERATOR.a), Term(t, 2, GENERATOR.b), Term(t, 4, GENERATOR.c);
    var d, e := Term(t, 8, GENERATOR.d), Term(t, 16, GENERATOR.e);
    PlusZero(e);
    AddIsTerm(t, 16, GENERATOR.e, 0);
    AddIsTerm(t, 8, GENERATOR.d, e);
    AddIsTerm(t, 4, GENERATOR.c, Plus(d, e));
    AddIsTerm(t, 2, GENERATOR.b, Plus(c, Plus(d, e)));
    AddIsTerm(t, 1, GENERATOR.a, Plus(b, Plus(c, Plus(d, e))));
    PlusAssoc(a, b, c);
    PlusAssoc(Plus(Plus(a, b), c), d, e);
    PlusAssoc(Plus(a, b), c, Plus(d, e));
    PlusAssoc(a, b, Plus(c, Plus(d, e)));
  }

  /** One more symbol of each of five polynomials. */
  function Level(m: Map, values: Quint, q: Quint): Quint {
    Quint(Plus(Apply(m, values.a), Embed(q.a)), Plus(Apply(m, values.b), Embed(q.b)),
          Plus(Apply(m, values.c), Embed(q.c)), Plus(Apply(m, values.d), Embed(q.d)),
          Plus(Apply(m, values.e), Embed(q.e)))
  }

  function HighEach(q: Quint): Quint {
    Quint(High(q.a), High(q.b), High(q.c), High(q.d), High(q.e))
  }

  lemma NextLevel(m: Map, q: Quint, k: nat)
    ensures EvalEach(m, q, k + 1) == Level(m, EvalEach(m, HighEach(q), k), q)
  {
    hide Plus, Apply, High, Embed;
  }

  lemma NoLevel(m: Map, q: Quint)
    ensures EvalEach(m, q, 0) == NOTHING
  {
  }

  lemma GeneratorShifts()
    ensures HighEach(GENERATOR) == GENERATOR1 && HighEach(GENERATOR1) == GENERATOR2
    ensures HighEach(GENERATOR2) == GENERATOR3 && HighEach(GENERATOR3) == GENERATOR4
    ensures HighEach(GENERATOR4) == GENERATOR5
  {
  }

  lemma FirstSymbols()
    ensures Embed(0x1d) == 946 && Embed(0x13) == 176 && Embed(0xf) == 771 && Embed(0x1e) == 957 && Embed(0x15) == 234
  {
  }

  lemma FirstLevel(m: Map)
    ensures Level(m, NOTHING, GENERATOR5) == Quint(946, 176, 771, 957, 234)
  {
    hide Apply, Embed, Plus;
    ApplyZero(m);
    FirstSymbols();
    PlusZero(946);
    PlusZero(176);
    PlusZero(771);
    PlusZero(957);
    PlusZero(234);
  }

  lemma Generator24()
    ensures Level(ALPHA24, Quint(946, 176, 771, 957, 234), GENERATOR4) == Quint(125, 742, 653, 175, 953)
    ensures Level(ALPHA24, Quint(125, 742, 653, 175, 953), GENERATOR3) == Quint(125, 742, 653, 175, 953)
  {
  }

  lemma GeneratorEnd24()
    ensures Level(ALPHA24, Quint(125, 742, 653, 175, 953), GENERATOR2) == Quint(124, 744, 729, 1015, 774)
    ensures Level(ALPHA24, Quint(124, 744, 729, 1015, 774), GENERATOR1) == Quint(212, 379, 935, 102, 612)
    ensures Level(ALPHA24, Quint(212, 379, 935, 102, 612), GENERATOR) == Quint(698, 421, 688, 457, 184)
  {
  }

  lemma Symbol24()
    ensures Each(ALPHA24, SYMBOL) == Quint(1008, 812, 551, 800, 623)
    ensures Each(ALPHA24, Quint(1008, 812, 551, 800, 623)) == Quint(589, 268, 301, 227, 113)
    ensures Each(ALPHA24, Quint(589, 268, 301, 227, 113)) == Quint(697, 439, 588, 258, 377)
  {
  }

  lemma SymbolEnd24()
    ensures Each(ALPHA24, Quint(697, 439, 588, 258, 377)) == Quint(185, 893, 329, 667, 107)
    ensures Each(ALPHA24, Quint(185, 893, 329, 667, 107)) == Quint(9, 126, 756, 625, 100)
    ensures Each(ALPHA24, Quint(9, 126, 756, 625, 100)) == Quint(698, 421, 688, 457, 184)
  {
  }

  lemma Generator25()
    ensures Level(ALPHA25, Quint(946, 176, 771, 957, 234), GENERATOR4) == Quint(469, 16, 224, 99, 594)
    ensures Level(ALPHA25, Quint(469, 16, 224, 99, 594), GENERATOR3) == Quint(941, 10, 108, 520, 698)
  {
  }

  lemma GeneratorEnd25()
    ensures Level(ALPHA25, Quint(941, 10, 108, 520, 698), GENERATOR2) == Quint(105, 574, 958, 248, 243)
    ensures Level(ALPHA25, Quint(105, 574, 958, 248, 243), GENERATOR1) == Quint(991, 694, 493, 320, 741)
    ensures Level(ALPHA25, Quint(991, 694, 493, 320, 741), GENERATOR) == Quint(166, 967, 550, 814, 571)
  {
  }

  lemma Symbol25()
    ensures Each(ALPHA25, SYMBOL) == Quint(707, 891, 365, 867, 509)
    ensures Each(ALPHA25, Quint(707, 891, 365, 867, 509)) == Quint(882, 275, 407, 908, 452)
    ensures Each(ALPHA25, Quint(882, 275, 407, 908, 452)) == Quint(324, 733, 975, 598, 398)
  {
  }

  lemma SymbolEnd25()
    ensures Each(ALPHA25, Quint(324, 733, 975, 598, 398)) == Quint(470, 2, 28, 168, 915)
    ensures Each(ALPHA25, Quint(470, 2, 28, 168, 915)) == Quint(288, 165, 981, 730, 997)
    ensures Each(ALPHA25, Quint(288, 165, 981, 730, 997)) == Quint(166, 967, 550, 814, 571)
  {
  }

  lemma Generator26()
    ensures Level(ALPHA26, Quint(946, 176, 771, 957, 234), GENERATOR4) == Quint(645, 223, 281, 507, 388)
    ensures Level(ALPHA26, Quint(645, 223, 281, 507, 388), GENERATOR3) == Quint(170, 911, 470, 2, 28)
  {
  }

  lemma GeneratorEnd26()
    ensures Level(ALPHA26, Quint(170, 911, 470, 2, 28), GENERATOR2) == Quint(311, 111, 538, 582, 366)
    ensures Level(ALPHA26, Quint(311, 111, 538, 582, 366), GENERATOR1) == Quint(403, 948, 148, 763, 555)
    ensures Level(ALPHA26, Quint(403, 948, 148, 763, 555), GENERATOR) == Quint(152, 691, 475, 68, 952)
  {
  }

  lemma Symbol26()
    ensures Each(ALPHA26, SYMBOL) == Quint(165, 981, 730, 997, 1018)
    ensures Each(ALPHA26, Quint(165, 981, 730, 997, 1018)) == Quint(685, 367, 895, 341, 563)
    ensures Each(ALPHA26, Quint(685, 367, 895, 341, 563)) == Quint(102, 612, 178, 799, 789)
  {
  }

  lemma SymbolEnd26()
    ensures Each(ALPHA26, Quint(102, 612, 178, 799, 789)) == Quint(938, 32, 448, 198, 391)
    ensures Each(ALPHA26, Quint(938, 32, 448, 198, 391)) == Quint(637, 44, 392, 822, 683)
    ensures Each(ALPHA26, Quint(637, 44, 392, 822, 683)) == Quint(152, 691, 475, 68, 952)
  {
  }

  lemma GeneratorLevels(m: Map)
    ensures EvalEach(m, GENERATOR5, 1) == Level(m, NOTHING, GENERATOR5)
    ensures EvalEach(m, GENERATOR4, 2) == Level(m, EvalEach(m, GENERATOR5, 1), GENERATOR4)
    ensures EvalEach(m, GENERATOR3, 3) == Level(m, EvalEach(m, GENERATOR4, 2), GENERATOR3)
    ensures EvalEach(m, GENERATOR2, 4) == Level(m, EvalEach(m, GENERATOR3, 3), GENERATOR2)
    ensures EvalEach(m, GENERATOR1, 5) == Level(m, EvalEach(m, GENERATOR2, 4), GENERATOR1)
    ensures EvalEach(m, GENERATOR, 6) == Level(m, EvalEach(m, GENERATOR1, 5), GENERATOR)
  {
    hide EvalEach, Level, HighEach;
    GeneratorShifts();
    NoLevel(m, HighEach(GENERATOR5));
    NextLevel(m, GENERATOR5, 0);
    NextLevel(m, GENERATOR4, 1);
    NextLevel(m, GENERATOR3, 2);
    NextLevel(m, GENERATOR2, 3);
    NextLevel(m, GENERATOR1, 4);
    NextLevel(m, GENERATOR, 5);
  }

  lemma {:induction false} TimesFive(m: Map, t: bv32, k: nat)
    ensures Times(m, k, Five(t, SYMBOL)) == Five(t, EachTimes(m, k))
  {
    hide Apply, Five, Each;
    if k > 0 {
      TimesFive(m, t, k - 1);
      ApplyFive(m, t, EachTimes(m, k - 1));
    }
  }

  /** The images of the five bits of a symbol after `k` applications. */
  function EachTimes(m: Map, k: nat): Quint {
    if k == 0 then SYMBOL else Each(m, EachTimes(m, k - 1))
  }

  lemma SixTimes(m: Map)
    ensures EachTimes(m, 6) == Each(m, Each(m, Each(m, Each(m, Each(m, Each(m, SYMBOL))))))
  {
    hide Each;
    assert EachTimes(m, 0) == SYMBOL;
    assert EachTimes(m, 1) == Each(m, SYMBOL);
    assert EachTimes(m, 3) == Each(m, Each(m, EachTimes(m, 1)));
    assert EachTimes(m, 5) == Each(m, Each(m, EachTimes(m, 3)));
  }

  lemma RootByBits(m: Map)
    requires EvalEach(m, GENERATOR, 6) == EachTimes(m, 6)
    ensures IsRoot(m)
  {
    hide Eval, Five, Times, EvalEach, EachTimes, Fold;
    forall t: bv32 | t < 32
      ensures Eval(m, Fold(t), 6) == Times(m, 6, Embed(t))
    {
      FoldIsFive(t);
      EvalFive(m, t, GENERATOR, 6);
      TimesFive(m, t, 6);
    }
  }

  lemma Roots()
    ensures IsRoot(ALPHA24) && IsRoot(ALPHA25) && IsRoot(ALPHA26)
  {
    hide IsRoot, EvalEach, Level, Each, EachTimes;
    GeneratorLevels(ALPHA24);
    FirstLevel(ALPHA24);
    Generator24();
    GeneratorEnd24();
    SixTimes(ALPHA24);
    Symbol24();
    SymbolEnd24();
    RootByBits(ALPHA24);
    GeneratorLevels(ALPHA25);
    FirstLevel(ALPHA25);
    Generator25();
    GeneratorEnd25();
    SixTimes(ALPHA25);
    Symbol25();
    SymbolEnd25();
    RootByBits(ALPHA25);
    GeneratorLevels(ALPHA26);
    FirstLevel(ALPHA26);
    Generator26();
    GeneratorEnd26();
    SixTimes(ALPHA26);
    Symbol26();
    SymbolEnd26();
    RootByBits(ALPHA26);
  }

  // ---------- a step of the checksum is a step of evaluation ----------

  function Rest(c: bv32): bv32 {
    c & 0x1ffffff
  }

  lemma UpHigh(c: bv32, v: bv32)
    requires v < 32
    ensures High(Plus(Up(c), v)) == Rest(c)
    ensures c < MODULUS_BITS ==> c == Plus(Rest(c), Top(c) << 25)
  {
  }

  lemma SkippedFive(c: bv32, q: Quint)
    requires c & 31 == 0
    ensures Five(c, q) == 0
  {
    NoBitsHere(c);
  }

  lemma NoBitsHere(c: bv32)
    requires c & 31 == 0
    ensures !Has(c, 1) && !Has(c, 2) && !Has(c, 4) && !Has(c, 8) && !Has(c, 16)
  {
  }

  lemma UpIsSkipped(c: bv32, q: Quint)
    ensures Five(Up(c), q) == 0
  {
    hide Five;
    UpLow(c);
    SkippedFive(Up(c), q);
  }

  lemma UpLow(c: bv32)
    ensures Up(c) & 31 == 0
  {
  }

  /** Only the lowest `k` symbols can differ from zero. */
  predicate Short(c: bv32, k: nat) {
    if k == 0 then c == 0 else Short(High(c), k - 1)
  }

  lemma RestIsShort(c: bv32)
    ensures Short(Rest(c), 5)
  {
    var d := Rest(c);
    assert High(High(High(High(High(d))))) == 0;
    assert Short(High(High(High(High(High(d))))), 0);
    assert Short(High(High(High(High(d)))), 1);
    assert Short(High(High(d)), 3);
  }

  lemma {:induction false} EvalShort(m: Map, c: bv32, k: nat)
    requires Short(c, k)
    ensures Eval(m, c, k + 1) == Eval(m, c, k)
    decreases k
  {
    hide Apply, High, Plus, Embed;
    if k == 0 {
      EvalZero(m, 1);
    } else {
      EvalShort(m, High(c), k - 1);
    }
  }

  /** A symbol shifted up by `k` places. */
  function Lifted(t: bv32, k: nat): bv32
    requires k <= 5
  {
    if k == 0 then t else if k == 1 then t << 5 else if k == 2 then t << 10 else if k == 3 then t << 15
    else if k == 4 then t << 20 else t << 25
  }

  lemma LiftedHigh(t: bv32, k: nat)
    requires t < 32 && 1 <= k <= 5
    ensures High(Lifted(t, k)) == Lifted(t, k - 1)
  {
  }

  lemma LiftedIsSkipped(t: bv32, k: nat)
    requires t < 32 && 1 <= k <= 5
    ensures Embed(Lifted(t, k)) == 0
  {
    hide Five, Lifted;
    LiftedLow(t, k);
    SkippedFive(Lifted(t, k), SYMBOL);
  }

  lemma LiftedLow(t: bv32, k: nat)
    requires t < 32 && 1 <= k <= 5
    ensures Lifted(t, k) & 31 == 0
  {
  }

  lemma {:induction false} EvalLifted(m: Map, t: bv32, k: nat)
    requires t < 32 && k <= 5
    ensures Eval(m, Lifted(t, k), k + 1) == Times(m, k, Embed(t))
    decreases k
  {
    hide Apply, High, Plus, Embed, Lifted;
    if k == 0 {
      LiftedNone(t);
      ApplyZero(m);
      assert Eval(m, High(t), 0) == 0;
      PlusZero(Embed(t));
    } else {
      LiftedHigh(t, k);
      LiftedIsSkipped(t, k);
      EvalLifted(m, t, k - 1);
      PlusZero(Apply(m, Eval(m, Lifted(t, k - 1), k)));
    }
  }

  lemma LiftedNone(t: bv32)
    ensures Lifted(t, 0) == t && Lifted(t, 5) == t << 25
  {
  }

  lemma TopIsSymbol(c: bv32)
    requires c < MODULUS_BITS
    ensures Top(c) < 32
  {
  }

  /** The value of a remainder is that of its lower symbols and of the highest. */
  lemma EvalSplit(m: Map, c: bv32)
    requires c < MODULUS_BITS
    ensures Eval(m, c, 6) == Plus(Eval(m, Rest(c), 5), Times(m, 5, Embed(Top(c))))
  {
    hide Eval, Plus, Rest, Top, Times, Embed;
    UpHigh(c, 0);
    TopIsSymbol(c);
    EvalIsLinear(m, Rest(c), Top(c) << 25, 6);
    RestIsShort(c);
    EvalShort(m, Rest(c), 5);
    LiftedNone(Top(c));
    EvalLifted(m, Top(c), 5);
  }

  lemma EvalUp(m: Map, c: bv32, v: bv32)
    requires v < 32
    ensures Eval(m, Plus(Up(c), v), 6) == Plus(Apply(m, Eval(m, Rest(c), 5)), Embed(v))
  {
    hide Apply, Plus, Rest, Up, Five, High;
    UpHigh(c, v);
    FiveIsLinear(Up(c), v, SYMBOL);
    UpIsSkipped(c, SYMBOL);
    PlusZero(Embed(v));
  }

  /** A step of the checksum multiplies the value by the root and adds the symbol. */
  lemma EvalStep(m: Map, c: bv32, v: bv32)
    requires IsRoot(m) && c < MODULUS_BITS && v < 32
    ensures Eval(m, Step(c, v), 6) == Plus(Apply(m, Eval(m, c, 6)), Embed(v))
  {
    hide Eval, Plus, Rest, Top, Up, Fold, Embed, Apply;
    var low, high := Eval(m, Rest(c), 5), Times(m, 5, Embed(Top(c)));
    TopIsSymbol(c);
    EvalIsLinear(m, Plus(Up(c), v), Fold(Top(c)), 6);
    EvalUp(m, c, v);
    EvalSplit(m, c);
    ApplyIsLinear(m, low, high);
    assert Times(m, 6, Embed(Top(c))) == Apply(m, high);
    PlusAssoc(Apply(m, low), Embed(v), Apply(m, high));
    PlusComm(Embed(v), Apply(m, high));
    PlusAssoc(Apply(m, low), Apply(m, high), Embed(v));
  }

  // ---------- the value of a sequence of symbols ----------

  /** The value after the symbols `v`, from value `s` on. */
  function Value(m: Map, s: bv32, v: seq<Byte>): bv32
    decreases |v|
  {
    if v == [] then s else Value(m, Plus(Apply(m, s), Embed(Wide(v[0]))), v[1..])
  }

  lemma WideSymbol(b: Byte)
    ensures b < 32 ==> Wide(b) < 32
    ensures Wide(b) == 0 <==> b == 0
  {
  }

  lemma {:induction false} EvalPoly(m: Map, c: bv32, v: seq<Byte>)
    requires IsRoot(m) && c < MODULUS_BITS && FiveBit(v)
    ensures Eval(m, Poly(c, v), 6) == Value(m, Eval(m, c, 6), v)
    decreases |v|
  {
    hide IsRoot, Eval, Step, Plus, Apply, Embed, Wide;
    if v != [] {
      WideSymbol(v[0]);
      StepRange(c, Wide(v[0]));
      EvalStep(m, c, Wide(v[0]));
      EvalPoly(m, Step(c, Wide(v[0])), v[1..]);
    }
  }

  /** Symbols that are zero only multiply. */
  lemma {:induction false} ValueOfZeroes(m: Map, k: nat, s: bv32, v: seq<Byte>, n: nat)
    requires IsPower(m, k) && n <= |v| && forall i :: 0 <= i < n ==> v[i] == 0
    ensures Value(m, s, v) == Value(m, Turn(k * n, s), v[n..])
    decreases n
  {
    hide IsPower, Plus, Apply, Embed, Wide, Turn;
    if n == 0 {
      NoTurn(k, s);
      assert v[0..] == v;
    } else {
      WideSymbol(0);
      EmbedZero();
      PlusZero(Apply(m, s));
      PowerApplies(m, k, s);
      ValueOfZeroes(m, k, Turn(k, s), v[1..], n - 1);
      assert v[1..][n - 1..] == v[n..];
      TurnAgain(k, n, s);
    }
  }

  lemma NoTurn(k: nat, s: bv32)
    ensures Turn(k * 0, s) == s
  {
  }

  lemma PowerApplies(m: Map, k: nat, s: bv32)
    requires IsPower(m, k)
    ensures Apply(m, s) == Turn(k, s)
  {
    hide Apply;
  }

  lemma TurnAgain(k: nat, n: nat, s: bv32)
    requires n > 0
    ensures Turn(k * (n - 1), Turn(k, s)) == Turn(k * n, s)
  {
    hide Turn;
    assert k * (n - 1) + k == k * n;
    TurnAdd(k * (n - 1), k, s);
  }

  lemma {:induction false} TurnZero(n: nat)
    ensures Turn(n, 0) == 0
  {
    hide Apply;
    if n > 0 {
      TurnZero(n - 1);
      ApplyZero(ALPHA);
    }
  }

  lemma EmbedRange(v: bv32)
    ensures Embed(v) < ELEMENTS
  {
    hide Five;
    FiveRange(v, SYMBOL);
  }

  lemma EmbedKernel(v: bv32)
    requires v < 32 && Embed(v) == 0
    ensures v == 0
  {
  }

  /** From the symbol at one place to just after the one at a later place, with zeroes between. */
  lemma ValueToNext(m: Map, k: nat, s: bv32, v: seq<Byte>, n: nat)
    requires IsPower(m, k) && n < |v| && forall i :: 0 <= i < n ==> v[i] == 0
    ensures Value(m, s, v) == Value(m, Plus(Turn(k * (n + 1), s), Embed(Wide(v[n]))), v[n + 1..])
  {
    hide IsPower, Plus, Apply, Embed, Wide, Turn;
    ValueOfZeroes(m, k, s, v, n);
    assert v[n..][0] == v[n] && v[n..][1..] == v[n + 1..];
    PowerApplies(m, k, Turn(k * n, s));
    assert k + k * n == k * (n + 1);
    TurnAdd(k, k * n, s);
  }

  /** Zero outside of three places. */
  ghost predicate OnlyAt(v: seq<Byte>, i: nat, j: nat, l: nat) {
    i < j < l < |v| && forall x :: 0 <= x < |v| && x != i && x != j && x != l ==> v[x] == 0
  }

  function At(v: seq<Byte>, i: nat): bv32
    requires i < |v|
  {
    Embed(Wide(v[i]))
  }

  /** The sum of three powers, times the symbols at those places, is zero if the value is. */
  lemma ValueOfThree(m: Map, k: nat, v: seq<Byte>, i: nat, j: nat, l: nat)
    requires IsPower(m, k) && OnlyAt(v, i, j, l) && Value(m, 0, v) == 0
    ensures Plus(Plus(Turn(k * (l - i), At(v, i)), Turn(k * (l - j), At(v, j))), At(v, l)) == 0
  {
    hide IsPower, Plus, Apply, Embed, Wide, Turn, Value;
    var x, y, z := At(v, i), At(v, j), At(v, l);
    EmbedRange(Wide(v[i]));
    EmbedRange(Wide(v[j]));
    EmbedRange(Wide(v[l]));
    ValueToNext(m, k, 0, v, i);
    TurnZero(k * (i + 1));
    PlusZero(x);
    var v1 := v[i + 1..];
    ValueToNext(m, k, x, v1, j - i - 1);
    var v2 := v1[j - i..];
    assert v2 == v[j + 1..] && v1[j - i - 1] == v[j];
    var s := Plus(Turn(k * (j - i), x), y);
    ValueToNext(m, k, s, v2, l - j - 1);
    var v3 := v2[l - j..];
    assert v2[l - j - 1] == v[l] && forall n :: 0 <= n < |v3| ==> v3[n] == v[l + 1 + n];
    var w := Plus(Turn(k * (l - j), s), z);
    ValueOfZeroes(m, k, w, v3, |v3|);
    assert v3[|v3|..] == [];
    EndOfValue(m, Turn(k * |v3|, w));
    SumsInRange(k * (j - i), k * (l - j), x, y, z);
    TurnIsZero(k * |v3|, w);
    TurnOfSum(k * (j - i), k * (l - j), x, y);
    TimesSum(k, j - i, l - j);
  }

  lemma SumsInRange(p: nat, q: nat, x: bv32, y: bv32, z: bv32)
    requires x < ELEMENTS && y < ELEMENTS && z < ELEMENTS
    ensures Plus(Turn(q, Plus(Turn(p, x), y)), z) < ELEMENTS
  {
    hide Turn, Plus;
    TurnRange(p, x);
    SumRange(Turn(p, x), y);
    TurnRange(q, Plus(Turn(p, x), y));
    SumRange(Turn(q, Plus(Turn(p, x), y)), z);
  }

  lemma TurnIsZero(n: nat, x: bv32)
    requires x < ELEMENTS && Turn(n, x) == 0
    ensures x == 0
  {
    TurnZero(n);
    TurnIsInjective(n, x, 0);
  }

  lemma TurnOfSum(p: nat, q: nat, x: bv32, y: bv32)
    ensures Turn(q, Plus(Turn(p, x), y)) == Plus(Turn(q + p, x), Turn(q, y))
  {
    hide Turn, Plus;
    TurnIsLinear(q, Turn(p, x), y);
    TurnAdd(q, p, x);
  }

  lemma TimesSum(k: nat, p: nat, q: nat)
    ensures k * q + k * p == k * (p + q)
  {
  }

  lemma EndOfValue(m: Map, s: bv32)
    ensures Value(m, s, []) == s
  {
  }

  // ---------- three errors ----------

  /** What three terms must satisfy at the k-th power. */
  ghost predicate Vanishes(k: nat, p: nat, q: nat, x: bv32, y: bv32, z: bv32) {
    Plus(Plus(Turn(k * p, x), Turn(k * q, y)), z) == 0
  }

  /** The next power turns each term once more. */
  lemma NextPower(k: nat, p: nat, q: nat, x: bv32, y: bv32, z: bv32)
    requires Vanishes(k + 1, p, q, x, y, z)
    ensures Plus(Plus(Turn(p, Turn(k * p, x)), Turn(q, Turn(k * q, y))), z) == 0
  {
    hide Turn, Plus;
    assert (k + 1) * p == p + k * p && (k + 1) * q == q + k * q;
    TurnAdd(p, k * p, x);
    TurnAdd(q, k * q, y);
  }

  lemma EqualSums(x: bv32, y: bv32, x': bv32, y': bv32, z: bv32)
    requires Plus(Plus(x, y), z) == 0 && Plus(Plus(x', y'), z) == 0
    ensures Plus(x, x') == Plus(y, y')
  {
    hide Plus;
    SameByXor(Plus(x, y), z);
    SameByXor(Plus(x', y'), z);
    PlusZero(z);
    PlusSwap(x, y, x', y');
    SameByXor(Plus(x, x'), Plus(y, y'));
  }

  /** Three terms at different places cannot vanish at three successive powers. */
  lemma ThreeTerms(k: nat, p: nat, q: nat, x: bv32, y: bv32, z: bv32)
    requires 0 < q < p < 1023 && x < ELEMENTS && y < ELEMENTS && z < ELEMENTS
    requires Vanishes(k, p, q, x, y, z) && Vanishes(k + 1, p, q, x, y, z) && Vanishes(k + 2, p, q, x, y, z)
    ensures x == 0
  {
    hide Turn, Plus;
    var x0, y0 := Turn(k * p, x), Turn(k * q, y);
    var x1, y1 := Turn(p, x0), Turn(q, y0);
    var x2, y2 := Turn(p, x1), Turn(q, y1);
    NextPower(k, p, q, x, y, z);
    NextPower(k + 1, p, q, x, y, z);
    SecondPower(k, p, x);
    SecondPower(k, q, y);
    EqualSums(x0, y0, x1, y1, z);
    EqualSums(x1, y1, x2, y2, z);
    var s := Plus(x0, x1);
    TurnIsLinear(p, x0, x1);
    TurnIsLinear(q, y0, y1);
    assert Turn(p, s) == Turn(q, s);
    TurnRange(k * p, x);
    TurnRange(p, x0);
    SumRange(x0, x1);
    DifferentTurns(p, q, s);
    SameByXor(x0, x1);
    TurnsAreFree(p, x0);
    TurnIsZero(k * p, x);
  }

  lemma SecondPower(k: nat, p: nat, x: bv32)
    ensures Turn((k + 1) * p, x) == Turn(p, Turn(k * p, x))
  {
    hide Turn;
    assert (k + 1) * p == p + k * p;
    TurnAdd(p, k * p, x);
  }

  lemma DifferentTurns(p: nat, q: nat, s: bv32)
    requires q < p < q + 1023 && s < ELEMENTS && Turn(p, s) == Turn(q, s)
    ensures s == 0
  {
    hide Turn;
    TurnAdd(q, p - q, s);
    TurnRange(p - q, s);
    TurnIsInjective(q, Turn(p - q, s), s);
    TurnsAreFree(p - q, s);
  }

  /** A difference in at most three places is zero at the first of them if the checksum does not show it. */
  lemma FirstIsZero(v: seq<Byte>, i: nat, j: nat, l: nat)
    requires FiveBit(v) && OnlyAt(v, i, j, l) && l - i < 1023 && Poly(0, v) == 0
    ensures v[i] == 0
  {
    hide IsRoot, IsPower, Eval, Value, Embed, Poly, Turn, Plus, Vanishes;
    Roots();
    RootPowers();
    VanishesAt(ALPHA24, 24, v, i, j, l);
    VanishesAt(ALPHA25, 25, v, i, j, l);
    VanishesAt(ALPHA26, 26, v, i, j, l);
    EmbedRange(Wide(v[i]));
    EmbedRange(Wide(v[j]));
    EmbedRange(Wide(v[l]));
    ThreeTerms(24, l - i, l - j, At(v, i), At(v, j), At(v, l));
    WideSymbol(v[i]);
    EmbedKernel(Wide(v[i]));
  }

  lemma VanishesAt(m: Map, k: nat, v: seq<Byte>, i: nat, j: nat, l: nat)
    requires IsRoot(m) && IsPower(m, k) && FiveBit(v) && OnlyAt(v, i, j, l) && Poly(0, v) == 0
    ensures Vanishes(k, l - i, l - j, At(v, i), At(v, j), At(v, l))
  {
    hide IsRoot, IsPower, Eval, Value, At, Turn, Plus;
    EvalPoly(m, 0, v);
    EvalZero(m, 6);
    ValueOfThree(m, k, v, i, j, l);
  }

  // ---------- any three places ----------

  ghost function Differences(a: seq<Byte>, b: seq<Byte>): set<nat>
    requires |a| == |b|
  {
    set i: nat | i < |a| && a[i] != b[i]
  }

  /** All places are within a window of 1023. */
  ghost predicate InWindow(places: set<nat>) {
    forall i, j :: i in places && j in places ==> j < i + 1023
  }

  /** Two places after `i`, within its window, that cover a set of at most two. */
  lemma TwoMore(places: set<nat>, i: nat, n: nat) returns (j: nat, l: nat)
    requires |places| <= 2 && i < n && forall x :: x in places ==> i < x < i + 1023 && x < n
    ensures i < j < l < n + 2 && l < i + 1023 && places <= {j, l}
  {
    if places == {} {
      j, l := i + 1, i + 2;
    } else {
      var x: nat := Sets.Pick(places);
      var rest := places - {x};
      var y: nat := if x == i + 1 then i + 2 else i + 1;
      if rest != {} {
        y := Sets.Pick(rest);
        assert |rest - {y}| == 0;
        assert rest == {y};
      }
      assert places == {x} + rest;
      j, l := if x < y then x else y, if x < y then y else x;
    }
  }

  lemma SumSymbols(a: seq<Byte>, b: seq<Byte>)
    requires |a| == |b| && FiveBit(a) && FiveBit(b)
    ensures FiveBit(Xor(a, b)) && forall i :: 0 <= i < |a| ==> (Xor(a, b)[i] == 0 <==> a[i] == b[i])
  {
    hide PlusByte;
    forall i | 0 <= i < |a|
      ensures Xor(a, b)[i] < 32 && (Xor(a, b)[i] == 0 <==> a[i] == b[i])
    {
      SumSymbol(a[i], b[i]);
    }
  }

  lemma SumSymbol(x: Byte, y: Byte)
    requires x < 32 && y < 32
    ensures PlusByte(x, y) < 32 && (PlusByte(x, y) == 0 <==> x == y)
  {
  }

  const TWO_ZEROES: seq<Byte> := [0, 0]

  /** A remainder of zero stays zero when zeroes follow. */
  lemma ZeroStays(v: seq<Byte>)
    requires Poly(0, v) == 0
    ensures Poly(0, v + TWO_ZEROES) == 0
  {
    PolyConcat(0, v, TWO_ZEROES);
    assert Step(0, 0) == 0;
    assert TWO_ZEROES[1..] == [0] && [0][1..] == TWO_ZEROES[2..] == [];
    assert Poly(0, [0]) == 0;
  }

  /** Symbols that differ in at most three places within 1023 of each other have different checksums. */
  lemma ThreeErrorsShow(c: bv32, a: seq<Byte>, b: seq<Byte>)
    requires |a| == |b| && FiveBit(a) && FiveBit(b) && c < MODULUS_BITS && Poly(c, a) == Poly(c, b)
    requires |Differences(a, b)| <= 3 && InWindow(Differences(a, b))
    ensures a == b
  {
    hide Poly, Plus, Xor;
    var all := Differences(a, b);
    if all != {} {
      var i: nat := FirstPlace(all);
      PolyIsLinear(c, a, c, b);
      PlusZero(c);
      PlusZero(Poly(c, a));
      SumSymbols(a, b);
      var v := Xor(a, b) + TWO_ZEROES;
      ZeroStays(Xor(a, b));
      var j, l := TwoMore(all - {i}, i, |a|);
      forall x | 0 <= x < |v| && x != i && x != j && x != l
        ensures v[x] == 0
      {
        if x < |a| {
          assert x in all ==> x in all - {i};
        }
      }
      FirstIsZero(v, i, j, l);
    } else {
      forall i | 0 <= i < |a|
        ensures a[i] == b[i]
      {
        assert i !in all;
      }
    }
  }

  lemma FirstPlace(places: set<nat>) returns (i: nat)
    requires places != {}
    ensures i in places && forall x :: x in places ==> i <= x
  {
    i := Sets.Least(places);
  }
}
