/** Skip heights, and how many steps the walk along skip and parent pointers takes. */
module SkipHeights {
  import opened Radix

  /** Bitwise and of natural numbers. */
  function And(x: nat, y: nat): (r: nat)
    ensures r <= x && r <= y
  {
    if x == 0 || y == 0 then 0 else 2 * And(x / 2, y / 2) + (if x % 2 == 1 && y % 2 == 1 then 1 else 0)
  }

  function InvertLowestOne(n: nat): (r: nat)
    ensures n > 0 ==> r < n
  {
    if n == 0 then 0 else And(n, n - 1)
  }

  /** The height that a skip pointer jumps back to. */
  function SkipHeight(height: nat): (r: nat)
    ensures height > 0 ==> r < height
  {
    if height < 2 then 0
    else if height % 2 == 1 then InvertLowestOne(InvertLowestOne(height - 1)) + 1
    else InvertLowestOne(height)
  }

  // ---------- the walk ----------

  /** Whether the walk to height `t` takes the skip pointer at height `h`. */
  predicate TakesSkip(h: nat, t: nat)
    requires h > t
  {
    var skip, skipPrev := SkipHeight(h), SkipHeight(h - 1);
    skip == t || (skip > t && !(skipPrev < skip - 2 && skipPrev >= t))
  }

  /** The height after one step, where every block has its skip pointer. */
  function Next(h: nat, t: nat): (r: nat)
    requires h > t
    ensures t <= r < h
  {
    if TakesSkip(h, t) then SkipHeight(h) else h - 1
  }

  function Steps(h: nat, t: nat): nat
    requires h >= t
    decreases h
  {
    if h == t then 0 else 1 + Steps(Next(h, t), t)
  }

  lemma OneStep(h: nat, t: nat)
    requires h > t
    ensures Steps(h, t) == 1 + if TakesSkip(h, t) then Steps(SkipHeight(h), t) else Steps(h - 1, t)
  {
    hide TakesSkip, SkipHeight;
  }

  // ---------- turning off the lowest bit ----------

  lemma LowestOfEven(n: nat)
    ensures InvertLowestOne(2 * n) == 2 * InvertLowestOne(n)
  {
    if n > 0 {
      assert (2 * n) / 2 == n && (2 * n - 1) / 2 == n - 1;
    }
  }

  lemma LowestOfOdd(n: nat)
    ensures InvertLowestOne(2 * n + 1) == 2 * n
  {
    AndSame(n);
    assert (2 * n + 1) / 2 == n && (2 * n) / 2 == n;
  }

  lemma {:induction false} AndSame(n: nat)
    ensures And(n, n) == n
  {
    if n > 0 {
      AndSame(n / 2);
    }
  }

  /** The lowest `k` bits are zero. */
  ghost predicate Round(n: nat, k: nat)
    decreases k
  {
    k == 0 || (n % 2 == 0 && Round(n / 2, k - 1))
  }

  lemma {:induction false} RoundLess(n: nat, k: nat, j: nat)
    requires Round(n, k) && j <= k
    ensures Round(n, j)
    decreases k
  {
    if j > 0 {
      RoundLess(n / 2, k - 1, j - 1);
    }
  }

  lemma {:induction false} RoundAdd(a: nat, b: nat, k: nat)
    requires Round(a, k) && Round(b, k)
    ensures Round(a + b, k) && (a >= b ==> Round(a - b, k))
    decreases k
  {
    if k > 0 {
      RoundAdd(a / 2, b / 2, k - 1);
      assert (a + b) / 2 == a / 2 + b / 2;
      if a >= b {
        assert (a - b) / 2 == a / 2 - b / 2;
      }
    }
  }

  lemma {:induction false} RoundPow(m: nat, k: nat)
    requires k <= m
    ensures Round(Pow2(m), k)
    decreases k
  {
    hide Pow2;
    if k > 0 {
      Pow2Next(m - 1);
      RoundPow(m - 1, k - 1);
    }
  }

  /** The lowest bit of a number is turned off. */
  lemma {:induction false} LowestIs(n: nat, k: nat)
    requires Round(n, k + 1)
    ensures InvertLowestOne(n + Pow2(k)) == n
    decreases k
  {
    hide Pow2, InvertLowestOne;
    if k == 0 {
      Pow2Next(0);
      LowestOfOdd(n / 2);
    } else {
      Pow2Next(k - 1);
      LowestIs(n / 2, k - 1);
      LowestOfEven(n / 2 + Pow2(k - 1));
    }
  }

  /** Bits above the lowest one do not matter. */
  lemma {:induction false} LowestAbove(n: nat, k: nat, x: nat)
    requires Round(n, k) && 0 < x < Pow2(k)
    ensures InvertLowestOne(n + x) == n + InvertLowestOne(x)
    decreases k
  {
    hide Pow2, InvertLowestOne;
    if k == 0 {
      Pow2Next(0);
    } else {
      var a, y := n / 2, x / 2;
      assert n == 2 * a;
      if x == 2 * y {
        Pow2Next(k - 1);
        LowestAbove(a, k - 1, y);
        LowestOfEven(a + y);
        LowestOfEven(y);
      } else {
        assert x == 2 * y + 1;
        LowestOfOdd(a + y);
        LowestOfOdd(y);
      }
    }
  }

  // ---------- single steps ----------

  lemma SkipOfEven(n: nat)
    requires n > 0
    ensures SkipHeight(2 * n) == InvertLowestOne(2 * n)
  {
    hide InvertLowestOne;
  }

  lemma SkipOfOdd(n: nat)
    requires n > 0
    ensures SkipHeight(2 * n + 1) == InvertLowestOne(InvertLowestOne(2 * n)) + 1
  {
    hide InvertLowestOne;
  }

  lemma NoLowest()
    ensures InvertLowestOne(0) == 0
  {
  }

  /** At an odd height the skip pointer is taken unless it leads too far. */
  lemma OddNext(n: nat, t: nat)
    requires 2 * n + 1 > t && n > 0
    ensures var h := 2 * n + 1;
            Next(h, t) == if SkipHeight(h) >= t then SkipHeight(h) else h - 1
  {
    hide InvertLowestOne, SkipHeight;
    SkipOfOdd(n);
    SkipOfEven(n);
    NoLowest();
  }

  lemma LowestOfFour(y: nat)
    ensures InvertLowestOne(4 * y + 2) == 4 * y && InvertLowestOne(8 * y + 4) == 8 * y
  {
    hide InvertLowestOne;
    LowestOfOdd(y);
    LowestOfEven(2 * y + 1);
    LowestOfEven(2 * (2 * y + 1));
  }

  lemma LowestTimes(n: nat)
    ensures InvertLowestOne(4 * n) == 4 * InvertLowestOne(n) && InvertLowestOne(8 * n) == 8 * InvertLowestOne(n)
  {
    hide InvertLowestOne;
    LowestOfEven(n);
    LowestOfEven(2 * n);
    LowestOfEven(4 * n);
  }

  lemma SkipBeforeEighth(n: nat)
    requires n > 0
    ensures SkipHeight(8 * n - 1) == 8 * n - 7
  {
    hide InvertLowestOne, SkipHeight;
    SkipOfOdd(4 * n - 1);
    LowestOfFour(2 * n - 1);
    LowestOfFour(n - 1);
  }

  /** At a multiple of eight the parent's skip pointer does not lead farther. */
  lemma EighthNext(n: nat, t: nat)
    requires 8 * n > t
    ensures SkipHeight(8 * n) == 8 * InvertLowestOne(n)
    ensures Next(8 * n, t) == if SkipHeight(8 * n) >= t then SkipHeight(8 * n) else 8 * n - 1
  {
    hide InvertLowestOne, SkipHeight;
    SkipOfEven(4 * n);
    LowestTimes(n);
    SkipBeforeEighth(n);
  }

  /** The skip pointer of the parent of a height that is not a multiple of eight. */
  lemma SkipBeforeFourth(y: nat)
    ensures SkipHeight(8 * y + 3) == InvertLowestOne(8 * y) + 1
  {
    hide InvertLowestOne, SkipHeight;
    SkipOfOdd(4 * y + 1);
    LowestOfFour(2 * y);
  }

  lemma SkipBeforeSecond(y: nat)
    requires y > 0
    ensures SkipHeight(4 * y + 1) == InvertLowestOne(InvertLowestOne(4 * y)) + 1
  {
    hide InvertLowestOne, SkipHeight;
    SkipOfOdd(2 * y);
  }

  lemma FirstSkip()
    ensures SkipHeight(1) == 0
  {
  }

  lemma FourthNext(y: nat, t: nat)
    requires 8 * y + 4 > t && InvertLowestOne(InvertLowestOne(8 * y + 4)) + 1 < t
    ensures var e := 8 * y + 4;
            Next(e, t) == if SkipHeight(e) >= t then SkipHeight(e) else e - 1
  {
    hide InvertLowestOne, SkipHeight;
    SkipBeforeFourth(y);
    LowestOfFour(y);
  }

  lemma SecondNext(y: nat, t: nat)
    requires 4 * y + 2 > t && InvertLowestOne(InvertLowestOne(4 * y + 2)) + 1 < t
    ensures var e := 4 * y + 2;
            Next(e, t) == if SkipHeight(e) >= t then SkipHeight(e) else e - 1
  {
    hide InvertLowestOne, SkipHeight;
    LowestOfFour(y);
    NoLowest();
    FirstSkip();
    if y > 0 {
      SkipBeforeSecond(y);
    }
  }

  /** At an even height whose child would skip too far, the skip pointer is taken unless it leads too far itself. */
  lemma EvenNext(n: nat, t: nat)
    requires 2 * n > t && InvertLowestOne(InvertLowestOne(2 * n)) + 1 < t
    ensures var e := 2 * n;
            Next(e, t) == if SkipHeight(e) >= t then SkipHeight(e) else e - 1
  {
    hide InvertLowestOne, SkipHeight, Next;
    var y := n / 2;
    if n == 2 * y {
      var z := y / 2;
      if y == 2 * z {
        EighthNext(z, t);
      } else {
        assert y == 2 * z + 1;
        FourthNext(z, t);
      }
    } else {
      assert n == 2 * y + 1;
      SecondNext(y, t);
    }
  }

  // ---------- below a power of two ----------

  /**
  The most steps from a multiple `base` of 2^(k+1) plus 2^k to a height between the two that exceeds `base` by more
  than one.
   */
  function Most(k: nat): nat {
    if k <= 2 then 2 else Most(k - 1) + 2 + (k - 1) / 2
  }

  lemma {:induction false} MostGrows(m: nat, k: nat)
    requires m <= k
    ensures Most(m) <= Most(k)
    decreases k
  {
    if m < k {
      MostGrows(m, k - 1);
    }
  }

  /** ... or to one that exceeds it by `r`. */
  function MostTo(k: nat, r: nat): nat {
    if r == 0 then 1 else if r == 1 then (if k % 2 == 1 then (k + 1) / 2 else k + 1) else Most(k)
  }

  /** The number with ones from bit `l` to bit `k` - 1, above `base`. */
  function Ones(base: nat, k: nat, l: nat): (r: nat)
    requires l <= k
    ensures base <= r <= base + Pow2(k)
  {
    Pow2Grows(l, k);
    base + Pow2(k) - Pow2(l)
  }

  lemma OnesAre(base: nat, k: nat, l: nat)
    requires l < k && Round(base, k)
    ensures Ones(base, k, l) == Ones(base, k, l + 1) + Pow2(l) && Round(Ones(base, k, l + 1), l + 1)
    ensures Round(Ones(base, k, l), l) && InvertLowestOne(Ones(base, k, l)) == Ones(base, k, l + 1)
  {
    hide Pow2, InvertLowestOne;
    Pow2Next(l);
    Pow2Grows(l + 1, k);
    RoundPow(k, l + 1);
    RoundPow(l + 1, l + 1);
    RoundLess(base, k, l + 1);
    RoundAdd(base, Pow2(k), l + 1);
    RoundAdd(base + Pow2(k), Pow2(l + 1), l + 1);
    LowestIs(Ones(base, k, l + 1), l);
    RoundPow(l, l);
    RoundLess(Ones(base, k, l + 1), l + 1, l);
    RoundAdd(Ones(base, k, l + 1), Pow2(l), l);
  }

  lemma RoundIsEven(n: nat, k: nat) returns (half: nat)
    requires Round(n, k) && k > 0
    ensures n == 2 * half && Round(half, k - 1)
  {
    half := n / 2;
  }

  lemma LowestBelowEven(n: nat)
    ensures n > 0 ==> InvertLowestOne(2 * n) <= 2 * n - 2
  {
    hide InvertLowestOne;
    LowestOfEven(n);
  }

  /** An odd step turns off two ones; the last of them leads below `base`, or to one. */
  lemma OddStep(base: nat, k: nat, l: nat, t: nat)
    requires Round(base, k + 1) && 1 <= l < k && base < t < Ones(base, k, l) + 1
    ensures if l + 2 <= k then SkipHeight(Ones(base, k, l) + 1) == Ones(base, k, l + 2) + 1
            else SkipHeight(Ones(base, k, l) + 1) >= t ==> SkipHeight(Ones(base, k, l) + 1) == t
    ensures var skip := SkipHeight(Ones(base, k, l) + 1);
            Next(Ones(base, k, l) + 1, t) == if skip >= t then skip else Ones(base, k, l)
    ensures InvertLowestOne(InvertLowestOne(Ones(base, k, l))) + 1 == SkipHeight(Ones(base, k, l) + 1)
  {
    hide Pow2, InvertLowestOne, Ones, Round, Next;
    RoundLess(base, k + 1, k);
    OnesAre(base, k, l);
    var n := RoundIsEven(Ones(base, k, l), l);
    OddNext(n, t);
    SkipOfOdd(n);
    if l + 2 <= k {
      OnesAre(base, k, l + 1);
    } else {
      NoOnes(base, k);
      var b := RoundIsEven(base, k);
      LowestBelowEven(b);
      NoLowest();
    }
  }

  lemma NoOnes(base: nat, k: nat)
    ensures Ones(base, k, k) == base
  {
  }

  lemma EvenStep(base: nat, k: nat, l: nat, t: nat)
    requires Round(base, k + 1) && 1 <= l < k && base < t < Ones(base, k, l)
    requires InvertLowestOne(InvertLowestOne(Ones(base, k, l))) + 1 < t
    ensures var e, skip := Ones(base, k, l), Ones(base, k, l + 1);
            Next(e, t) == if skip >= t then skip else e - 1
  {
    hide Pow2, InvertLowestOne, Ones, Round, Next;
    RoundLess(base, k + 1, k);
    OnesAre(base, k, l);
    var n := RoundIsEven(Ones(base, k, l), l);
    EvenNext(n, t);
    SkipOfEven(n);
  }

  /** A number of ones is a power of two above a round number. */
  lemma OnesTop(base: nat, k: nat, m: nat)
    requires Round(base, k + 1) && m < k
    ensures Round(Ones(base, k, m + 1), m + 1) && Ones(base, k, m) == Ones(base, k, m + 1) + Pow2(m)
    ensures base <= Ones(base, k, m + 1) && (m + 1 < k ==> Ones(base, k, m + 1) >= base + 2)
  {
    hide Pow2, Round, Ones;
    RoundLess(base, k + 1, k);
    OnesAre(base, k, m);
    if m + 1 < k {
      OnesAre(base, k, m + 1);
      Pow2Next(m);
    }
  }

  lemma TopNext(base: nat, k: nat, t: nat)
    requires Round(base, k + 1) && base <= t < base + Pow2(k)
    ensures Next(base + Pow2(k), t) == if t == base then base else base + Pow2(k) - 1
  {
    hide Pow2, InvertLowestOne, SkipHeight, Round;
    if k == 0 {
      Pow2Next(0);
    } else {
      LowestIs(base, k);
      Pow2Next(k - 1);
      var half := RoundIsEven(base, k + 1);
      SkipOfEven(half + Pow2(k - 1));
    }
  }

  lemma OnesOfAll(base: nat, k: nat)
    requires k > 0
    ensures Ones(base, k, 1) + 1 == base + Pow2(k) - 1
  {
    hide Pow2;
    Pow2Next(0);
  }

  lemma {:induction false} MostAtLeast(k: nat)
    requires k >= 3
    ensures Most(k) >= 3 * k - 4
  {
    if k > 3 {
      MostAtLeast(k - 1);
    }
  }

  /** From a power of two above a round number to anything between the two. */
  lemma {:induction false} StepsBelow(base: nat, k: nat, t: nat)
    requires Round(base, k + 1) && base <= t < base + Pow2(k)
    ensures Steps(base + Pow2(k), t) <= MostTo(k, t - base)
    decreases k, k + 1
  {
    hide Pow2, Round, Ones, Next, Most;
    TopNext(base, k, t);
    if t > base {
      if k == 0 {
        Pow2Next(0);
      } else {
        OnesOfAll(base, k);
        StepsThroughOnes(base, k, 1, t);
      }
    }
  }

  /** From a number of ones in the middle of the walk, which has taken a step and turned off two of them at a time. */
  lemma {:induction false} StepsThroughOnes(base: nat, k: nat, l: nat, t: nat)
    requires Round(base, k + 1) && l <= k && l % 2 == 1 && base < t <= Ones(base, k, l) + 1
    ensures Steps(Ones(base, k, l) + 1, t) + 1 + (l - 1) / 2 <= MostTo(k, t - base)
    decreases k, k - l
  {
    hide Pow2, Round, Ones, Next, MostTo, InvertLowestOne, SkipHeight;
    var v := Ones(base, k, l) + 1;
    if l == k {
      NoOnes(base, k);
      FewSteps(base, k, l, t, 0);
    } else if v == t {
      OnesTop(base, k, l);
      FewSteps(base, k, l, t, 0);
    } else {
      OddStep(base, k, l, t);
      if SkipHeight(v) >= t {
        if l + 2 <= k {
          StepsThroughOnes(base, k, l + 2, t);
        } else {
          FewSteps(base, k, l, t, 1);
        }
      } else {
        StepsFromEven(base, k, l, t);
      }
    }
  }

  /** A walk that ends soon. */
  lemma FewSteps(base: nat, k: nat, l: nat, t: nat, n: nat)
    requires 1 <= l <= k && l % 2 == 1 && base < t && n <= 1
    requires l == k ==> t == base + 1 && n == 0
    requires l + 2 <= k ==> t > base + 1
    ensures n + 1 + (l - 1) / 2 <= MostTo(k, t - base)
  {
    if k >= 3 {
      MostAtLeast(k);
    }
  }

  /** The walk from the even number below, when the skip pointer of the odd one leads too far. */
  lemma {:induction false} StepsFromEven(base: nat, k: nat, l: nat, t: nat)
    requires Round(base, k + 1) && l < k && l % 2 == 1 && base < t <= Ones(base, k, l)
    requires InvertLowestOne(InvertLowestOne(Ones(base, k, l))) + 1 < t
    requires l + 2 <= k ==> Ones(base, k, l + 2) + 1 < t
    ensures Steps(Ones(base, k, l), t) + 2 + (l - 1) / 2 <= MostTo(k, t - base)
    decreases k, 0
  {
    hide Pow2, Round, Ones, Next, MostTo, InvertLowestOne;
    var e, below := Ones(base, k, l), Ones(base, k, l + 1);
    OnesTop(base, k, l);
    if e == t {
      SumEqual(base, k, l, t);
    } else if t >= below {
      StepsBelow(below, l, t);
      SumBelow(base, k, l, t);
    } else {
      NoOnes(base, k);
      OnesTop(base, k, l + 1);
      EvenStep(base, k, l, t);
      StepsBelow(Ones(base, k, l + 2), l + 1, t);
      SumAbove(base, k, l, t);
    }
  }

  lemma SumEqual(base: nat, k: nat, l: nat, t: nat)
    requires 1 <= l < k && l % 2 == 1 && t == Ones(base, k, l)
    ensures 2 + (l - 1) / 2 <= MostTo(k, t - base)
  {
    hide Pow2;
    Pow2Next(l);
    Pow2Next(l - 1);
    Pow2Grows(l + 1, k);
    if k >= 3 {
      MostAtLeast(k);
    }
  }

  lemma SumBelow(base: nat, k: nat, l: nat, t: nat)
    requires 1 <= l < k && l % 2 == 1 && base < t && Ones(base, k, l + 1) <= t < Ones(base, k, l)
    ensures MostTo(l, t - Ones(base, k, l + 1)) + 2 + (l - 1) / 2 <= MostTo(k, t - base)
  {
    hide Pow2;
    Pow2Next(l);
    Pow2Next(0);
    if l + 1 < k {
      Pow2Next(l + 1);
      Pow2Grows(l + 2, k);
      MostAtLeast(k);
    }
    MostGrows(l + 1, k);
  }

  lemma SumAbove(base: nat, k: nat, l: nat, t: nat)
    requires 1 <= l < k - 1 && l % 2 == 1 && Ones(base, k, l + 2) + 1 < t
    ensures MostTo(l + 1, t - Ones(base, k, l + 2)) + 3 + (l - 1) / 2 <= MostTo(k, t - base)
  {
    hide Pow2;
    MostGrows(l + 2, k);
  }

  // ---------- from any height ----------

  /** How many ones a number has. */
  function Bits(x: nat): nat {
    if x == 0 then 0 else x % 2 + Bits(x / 2)
  }

  lemma BitsNext(x: nat)
    ensures Bits(2 * x) == Bits(x) && Bits(2 * x + 1) == 1 + Bits(x)
  {
    assert (2 * x) / 2 == x && (2 * x + 1) / 2 == x;
  }

  lemma NoBits()
    ensures Bits(0) == 0 && Bits(1) == 1
  {
  }

  lemma {:induction false} BitsLowest(x: nat)
    requires x > 0
    ensures Bits(InvertLowestOne(x)) == Bits(x) - 1
  {
    hide InvertLowestOne, Bits;
    var y := x / 2;
    BitsNext(y);
    if x == 2 * y {
      BitsLowest(y);
      LowestOfEven(y);
      BitsNext(InvertLowestOne(y));
    } else {
      LowestOfOdd(y);
    }
  }

  lemma {:induction false} BitsAtMost(x: nat, k: nat)
    requires x < Pow2(k)
    ensures Bits(x) <= k
    decreases k
  {
    hide Pow2;
    Pow2Next(0);
    if k > 0 {
      Pow2Next(k - 1);
      BitsAtMost(x / 2, k - 1);
    }
  }

  /** One bit less if the number is doubled, and three if it is multiplied by eight. */
  lemma HalfBits(x: nat, k: nat)
    requires 2 * x < Pow2(k) && k > 0
    ensures Bits(x) <= k - 1
  {
    hide Pow2, Bits;
    Pow2Next(k - 1);
    BitsAtMost(x, k - 1);
  }

  lemma EighthBits(x: nat, k: nat)
    requires 8 * x < Pow2(k) && x > 0
    ensures k >= 4 && Bits(x) <= k - 3
  {
    hide Pow2, Bits;
    SmallPowers();
    if k < 4 {
      Pow2Grows(k, 3);
    }
    Pow2Next(k - 1);
    Pow2Next(k - 2);
    HalfBits(x, k - 2);
  }

  lemma SmallPowers()
    ensures Pow2(0) == 1 && Pow2(1) == 2 && Pow2(2) == 4 && Pow2(3) == 8
  {
  }

  /** The height above `base` with bit `j` and the lower bits `x`. */
  function Above(base: nat, j: nat, x: nat): nat {
    base + Pow2(j) + x
  }

  lemma AboveSum(base: nat, j: nat, x: nat)
    ensures Above(base, j, x) == Above(base, j, 0) + x && Above(base, j, 0) == base + Pow2(j) > 0
  {
  }

  lemma AboveLowest(base: nat, j: nat, x: nat)
    requires Round(base, j + 1) && x < Pow2(j)
    ensures InvertLowestOne(Above(base, j, x)) == if x == 0 then base else Above(base, j, InvertLowestOne(x))
  {
    hide Pow2, InvertLowestOne, Round;
    if x == 0 {
      LowestIs(base, j);
    } else {
      RoundPow(j, j);
      RoundLess(base, j + 1, j);
      RoundAdd(base, Pow2(j), j);
      LowestAbove(base + Pow2(j), j, x);
    }
  }

  lemma AboveIsRound(base: nat, j: nat, i: nat)
    requires Round(base, j + 1) && i <= j
    ensures Round(Above(base, j, 0), i)
  {
    hide Pow2, Round;
    RoundPow(j, i);
    RoundLess(base, j + 1, i);
    RoundAdd(base, Pow2(j), i);
  }

  lemma AboveIsEven(base: nat, j: nat) returns (n: nat)
    requires Round(base, j + 1) && 1 <= j
    ensures Above(base, j, 0) == 2 * n
  {
    hide Pow2, Round, Above;
    AboveIsRound(base, j, 1);
    n := RoundIsEven(Above(base, j, 0), 1);
  }

  lemma AboveIsFourth(base: nat, j: nat) returns (n: nat)
    requires Round(base, j + 1) && 2 <= j
    ensures Above(base, j, 0) == 4 * n
  {
    hide Pow2, Round, Above;
    AboveIsRound(base, j, 2);
    n := RoundIsEven(Above(base, j, 0), 2);
    n := RoundIsEven(n, 1);
  }

  lemma AboveIsEighth(base: nat, j: nat) returns (n: nat)
    requires Round(base, j + 1) && 3 <= j
    ensures Above(base, j, 0) == 8 * n
  {
    hide Pow2, Round, Above;
    AboveIsRound(base, j, 3);
    n := RoundIsEven(Above(base, j, 0), 3);
    n := RoundIsEven(n, 2);
    n := RoundIsEven(n, 1);
  }

  lemma AtLeastBits(x: nat, j: nat, k: nat)
    requires Pow2(k) <= x < Pow2(j)
    ensures k < j
  {
    hide Pow2;
    if j <= k {
      Pow2Grows(j, k);
    }
  }

  /** From a multiple of eight the ones are turned off one by one. */
  lemma {:induction false} StepsFromEighth(base: nat, j: nat, y: nat, t: nat)
    requires Round(base, j + 1) && 8 * y < Pow2(j) && base <= t < base + Pow2(j)
    ensures Steps(Above(base, j, 8 * y), t) <= Bits(y) + MostTo(j, t - base)
    decreases y
  {
    hide Pow2, InvertLowestOne, Round, MostTo, Next, Above, SkipHeight, Bits;
    AboveSum(base, j, 8 * y);
    if y == 0 {
      StepsBelow(base, j, t);
    } else {
      EighthBits(y, j);
      var n := AboveIsEighth(base, j);
      EighthNext(n + y, t);
      LowestTimes(n + y);
      LowestTimes(y);
      AboveLowest(base, j, 8 * y);
      AboveSum(base, j, 8 * InvertLowestOne(y));
      BitsLowest(y);
      StepsFromEighth(base, j, InvertLowestOne(y), t);
    }
  }

  lemma StepsFromNext(base: nat, t: nat)
    requires base <= t <= base + 1
    ensures Steps(base + 1, t) <= 1
  {
    hide Next;
  }

  /** From an odd height they are turned off in pairs. */
  lemma {:induction false} StepsFromOdd(base: nat, j: nat, y: nat, t: nat)
    requires Round(base, j + 1) && 2 * y + 1 < Pow2(j) && base <= t < base + Pow2(j)
    ensures Steps(Above(base, j, 2 * y + 1), t) <= Bits(y) / 2 + 2 + MostTo(j, t - base)
    decreases y
  {
    hide Pow2, InvertLowestOne, Round, MostTo, Next, Above, SkipHeight, Bits;
    SmallPowers();
    AtLeastBits(2 * y + 1, j, 0);
    var n := AboveIsEven(base, j);
    var h, z := Above(base, j, 2 * y + 1), InvertLowestOne(y);
    AboveSum(base, j, 2 * y + 1);
    AboveSum(base, j, 2 * y);
    OddNext(n + y, t);
    SkipOfOdd(n + y);
    AboveLowest(base, j, 2 * y);
    LowestOfEven(y);
    NoLowest();
    if y > 0 && z > 0 {
      BitsLowest(y);
      BitsLowest(z);
      AboveLowest(base, j, 2 * z);
      LowestOfEven(z);
      AboveSum(base, j, 2 * InvertLowestOne(z));
      AboveSum(base, j, 2 * InvertLowestOne(z) + 1);
      StepsFromOdd(base, j, InvertLowestOne(z), t);
    } else {
      if y > 0 {
        AboveLowest(base, j, 0);
      } else {
        var b := RoundIsEven(base, j + 1);
        LowestBelowEven(b);
      }
      StepsFromLastOdd(base, j, y, t);
    }
  }

  /** An odd height with at most one more bit than the highest. */
  lemma StepsFromLastOdd(base: nat, j: nat, y: nat, t: nat)
    requires Round(base, j + 1) && 2 * y + 1 < Pow2(j) && base <= t < base + Pow2(j) && InvertLowestOne(y) == 0
    requires var h := Above(base, j, 2 * y + 1);
             && h > t && Next(h, t) == (if SkipHeight(h) >= t then SkipHeight(h) else h - 1)
             && SkipHeight(h) == if y == 0 then InvertLowestOne(base) + 1 else base + 1
    requires y == 0 && base > 0 ==> InvertLowestOne(base) + 1 < base
    ensures Steps(Above(base, j, 2 * y + 1), t) <= 2 + MostTo(j, t - base)
  {
    hide Pow2, InvertLowestOne, Round, MostTo, Next, Above, SkipHeight;
    var h := Above(base, j, 2 * y + 1);
    AboveSum(base, j, 2 * y + 1);
    AboveSum(base, j, 2 * y);
    NoLowest();
    if SkipHeight(h) >= t {
      StepsFromNext(SkipHeight(h) - 1, t);
    } else {
      StepsBelow(base, j, t);
      if y > 0 {
        LastParent(base, j, y, t);
      }
    }
  }

  lemma LastParent(base: nat, j: nat, y: nat, t: nat)
    requires Round(base, j + 1) && 0 < 2 * y < Pow2(j) && InvertLowestOne(y) == 0
    requires base + 1 < t < base + Pow2(j)
    ensures t < Above(base, j, 2 * y) && Next(Above(base, j, 2 * y), t) == Above(base, j, 0)
  {
    hide Pow2, InvertLowestOne, Round, Next, Above, SkipHeight;
    SmallPowers();
    AtLeastBits(2 * y, j, 1);
    var n := AboveIsEven(base, j);
    AboveSum(base, j, 2 * y);
    AboveLowest(base, j, 2 * y);
    LowestOfEven(y);
    AboveLowest(base, j, 0);
    EvenNext(n + y, t);
    SkipOfEven(n + y);
  }

  /** Four more than a multiple of eight does not take its skip pointer, because that of its parent leads farther. */
  lemma FourthKeeps(base: nat, j: nat, y: nat, t: nat)
    requires Round(base, j + 1) && 8 * y + 4 < Pow2(j) && base <= t < base + Pow2(j)
    ensures var e := Above(base, j, 8 * y + 4);
            && e > t && SkipHeight(e) == Above(base, j, 8 * y) && (y > 0 ==> !TakesSkip(e, t))
  {
    hide Pow2, InvertLowestOne, Round, Above, SkipHeight;
    SmallPowers();
    AtLeastBits(8 * y + 4, j, 2);
    var n := AboveIsEighth(base, j);
    AboveSum(base, j, 8 * y + 4);
    AboveSum(base, j, 8 * y);
    SkipOfEven(4 * (n + y) + 2);
    LowestOfFour(n + y);
    if y > 0 {
      SkipBeforeFourth(n + y);
      AboveLowest(base, j, 8 * y);
      AboveSum(base, j, InvertLowestOne(8 * y));
      LowestTimes(n + y);
    }
  }

  /** Two more than a multiple of four takes it only if that multiple adds at most one bit. */
  lemma SecondKeeps(base: nat, j: nat, y: nat, t: nat)
    requires Round(base, j + 1) && 4 * y + 2 < Pow2(j) && base <= t < base + Pow2(j)
    ensures var e := Above(base, j, 4 * y + 2);
            && e > t && SkipHeight(e) == Above(base, j, 4 * y) && (InvertLowestOne(y) > 0 ==> !TakesSkip(e, t))
  {
    hide Pow2, InvertLowestOne, Round, Above, SkipHeight;
    SmallPowers();
    AtLeastBits(4 * y + 2, j, 1);
    var n := AboveIsFourth(base, j);
    AboveSum(base, j, 4 * y + 2);
    AboveSum(base, j, 4 * y);
    SkipOfEven(2 * (n + y) + 1);
    LowestOfFour(n + y);
    NoLowest();
    if InvertLowestOne(y) > 0 {
      SecondFar(base, j, y, n);
    }
  }

  lemma SecondFar(base: nat, j: nat, y: nat, n: nat)
    requires Round(base, j + 1) && 4 * y < Pow2(j) && InvertLowestOne(y) > 0 && Above(base, j, 0) == 4 * n && y > 0
    ensures base + Pow2(j) < SkipHeight(4 * (n + y) + 1) < 4 * (n + y) - 2
  {
    hide Pow2, InvertLowestOne, Round, Above, SkipHeight;
    var z := InvertLowestOne(y);
    SkipBeforeSecond(n + y);
    AboveSum(base, j, 4 * y);
    AboveLowest(base, j, 4 * y);
    LowestTimes(y);
    AboveLowest(base, j, 4 * z);
    AboveSum(base, j, InvertLowestOne(4 * z));
    LowestTimes(n + y);
    LowestTimes(InvertLowestOne(n + y));
  }

  /** The steps before the highest bit is left alone, at most. */
  function Lead(j: nat): nat {
    if j >= 12 then j - 3 else if j == 0 then 3 else (j - 1) / 2 + 3
  }

  lemma StepsFromFourth(base: nat, j: nat, y: nat, t: nat)
    requires Round(base, j + 1) && 8 * y + 4 < Pow2(j) && base <= t < base + Pow2(j)
    ensures j >= 3 && Steps(Above(base, j, 8 * y + 4), t) <= MostTo(j, t - base) + if y == 0 then 3 else (j - 1) / 2 + 3
  {
    hide Pow2, InvertLowestOne, Round, MostTo, Bits, TakesSkip, Above, SkipHeight;
    SmallPowers();
    AtLeastBits(8 * y + 4, j, 2);
    FourthKeeps(base, j, y, t);
    var e := Above(base, j, 8 * y + 4);
    AboveSum(base, j, 8 * y + 4);
    AboveSum(base, j, 8 * y + 3);
    if TakesSkip(e, t) {
      AboveSum(base, j, 0);
      StepsBelow(base, j, t);
    } else {
      StepsFromOdd(base, j, 4 * y + 1, t);
      HalfBits(4 * y + 1, j);
      NoBits();
    }
  }

  lemma StepsFromSecond(base: nat, j: nat, y: nat, t: nat)
    requires Round(base, j + 1) && 4 * y + 2 < Pow2(j) && base <= t < base + Pow2(j)
    ensures Steps(Above(base, j, 4 * y + 2), t) <= MostTo(j, t - base) + (j - 1) / 2 + 3
  {
    hide Pow2, InvertLowestOne, Round, MostTo, Bits, TakesSkip, Above, SkipHeight;
    SmallPowers();
    AtLeastBits(4 * y + 2, j, 1);
    SecondKeeps(base, j, y, t);
    var e := Above(base, j, 4 * y + 2);
    AboveSum(base, j, 4 * y + 2);
    AboveSum(base, j, 4 * y + 1);
    if TakesSkip(e, t) {
      StepsFromOneBit(base, j, y, t);
    } else {
      StepsFromOdd(base, j, 2 * y, t);
      HalfBits(2 * y, j);
    }
  }

  lemma StepsFromOneBit(base: nat, j: nat, y: nat, t: nat)
    requires Round(base, j + 1) && 4 * y < Pow2(j) && base <= t < base + Pow2(j) && InvertLowestOne(y) == 0 && j >= 2
    ensures Steps(Above(base, j, 4 * y), t) <= MostTo(j, t - base) + (j - 1) / 2 + 2
  {
    hide Pow2, InvertLowestOne, Round, MostTo, Bits, Steps, Above;
    var z := y / 2;
    if y == 0 {
      AboveSum(base, j, 0);
      StepsBelow(base, j, t);
    } else if y == 2 * z {
      BitsLowest(y);
      NoBits();
      BitsNext(z);
      StepsFromEighth(base, j, z, t);
    } else {
      assert y == 2 * z + 1;
      LowestOfOdd(z);
      StepsFromFourth(base, j, 0, t);
    }
  }

  lemma StepsFromAbove(base: nat, j: nat, x: nat, t: nat)
    requires Round(base, j + 1) && x < Pow2(j) && base <= t < base + Pow2(j)
    ensures Steps(Above(base, j, x), t) <= MostTo(j, t - base) + if x == 0 then 0 else Lead(j)
  {
    hide Pow2, Round, MostTo, Bits, Steps, Above;
    var y := x / 2;
    if x == 0 {
      StepsBelow(base, j, t);
      AboveSum(base, j, 0);
    } else if x == 2 * y {
      StepsFromTwice(base, j, y, t);
    } else {
      assert x == 2 * y + 1;
      SmallPowers();
      AtLeastBits(x, j, 0);
      StepsFromOdd(base, j, y, t);
      HalfBits(y, j);
    }
  }

  lemma StepsFromTwice(base: nat, j: nat, y: nat, t: nat)
    requires Round(base, j + 1) && 0 < 2 * y < Pow2(j) && base <= t < base + Pow2(j)
    ensures Steps(Above(base, j, 2 * y), t) <= MostTo(j, t - base) + Lead(j)
  {
    hide Pow2, Round, MostTo, Bits, Steps, Above;
    SmallPowers();
    AtLeastBits(2 * y, j, 1);
    var z := y / 2;
    if y == 2 * z {
      var w := z / 2;
      if z == 2 * w {
        StepsFromEighth(base, j, w, t);
        EighthBits(w, j);
      } else {
        assert z == 2 * w + 1;
        StepsFromFourth(base, j, w, t);
      }
    } else {
      assert y == 2 * z + 1;
      StepsFromSecond(base, j, z, t);
    }
  }

  // ---------- the limit ----------

  /** The highest bit in which two heights differ. */
  lemma {:induction false} HighestDifference(h: nat, t: nat) returns (base: nat, j: nat, x: nat)
    requires h > t
    ensures Round(base, j + 1) && x < Pow2(j) && base <= t < base + Pow2(j) && h == Above(base, j, x)
  {
    hide Pow2, Round;
    if h / 2 == t / 2 {
      base, j, x := t, 0, 0;
      Pow2Next(0);
      RoundOne(t);
    } else {
      var b, i, y := HighestDifference(h / 2, t / 2);
      base, j, x := 2 * b, i + 1, 2 * y + h % 2;
      Pow2Next(i);
      RoundTwice(b, i + 1);
    }
  }

  lemma RoundOne(n: nat)
    requires n % 2 == 0
    ensures Round(n, 1)
  {
  }

  lemma RoundTwice(n: nat, k: nat)
    requires Round(n, k)
    ensures Round(2 * n, k + 1)
  {
  }

  /** The most steps below a power of two, to any height. */
  function MostAny(j: nat): nat {
    if j <= 2 then 3 else Most(j)
  }

  lemma MostToAny(j: nat, r: nat)
    requires r < Pow2(j)
    ensures MostTo(j, r) <= MostAny(j)
  {
    if j >= 3 {
      MostAtLeast(j);
    } else {
      SmallPowers();
    }
  }

  /** The most steps from heights up to 2^k. */
  function Limit(k: nat): nat
    requires k > 0
  {
    Lead(k - 1) + MostAny(k - 1)
  }

  lemma {:induction false} LimitGrows(m: nat, k: nat)
    requires 0 < m <= k
    ensures Limit(m) <= Limit(k)
    decreases k
  {
    hide Most;
    if m < k {
      LimitGrows(m, k - 1);
      MostGrows(k - 2, k - 1);
      FirstMost();
    }
  }

  lemma FirstMost()
    ensures Most(0) == Most(1) == Most(2) == 2 && Most(3) == 5
  {
  }

  /** No walk from a height of at most 2^k takes more steps than the limit. */
  lemma StepLimit(h: nat, t: nat, k: nat)
    requires t <= h <= Pow2(k) && k > 0
    ensures Steps(h, t) <= Limit(k)
  {
    hide Pow2, Round, MostTo, Most, Steps, Lead;
    if h == t {
      NoSteps(h);
    } else {
      var base, j, x := HighestDifference(h, t);
      StepsFromAbove(base, j, x, t);
      MostToAny(j, t - base);
      if j < k {
        LimitGrows(j + 1, k);
      } else {
        TopBit(base, j, x, k);
        LimitOfPower(k);
      }
    }
  }

  lemma NoSteps(h: nat)
    ensures Steps(h, h) == 0
  {
  }

  lemma TopBit(base: nat, j: nat, x: nat, k: nat)
    requires Above(base, j, x) <= Pow2(k) && k <= j
    ensures x == 0 && j == k
  {
    hide Pow2;
    Pow2Next(k);
    if k < j {
      Pow2Grows(k + 1, j);
    }
  }

  lemma LimitOfPower(k: nat)
    requires k > 0
    ensures MostAny(k) <= Limit(k)
  {
    FirstMost();
  }

  // ---------- the limit is reached ----------

  lemma RoundZero(k: nat)
    ensures Round(0, k)
  {
  }

  lemma {:induction false} StepsToTwo(k: nat)
    requires k >= 2
    ensures Steps(Pow2(k), 2) == Most(k)
    decreases k, k + 1
  {
    hide Pow2, Round, Ones, Next;
    RoundZero(k + 1);
    SmallPowers();
    if k == 2 {
      FourToTwo();
    } else {
      Pow2Grows(3, k);
      TopNext(0, k, 2);
      OnesOfAll(0, k);
      OnesToTwo(k, 1);
    }
  }

  lemma FourToTwo()
    ensures Steps(4, 2) == 2
  {
    assert SkipHeight(4) == 0 && SkipHeight(3) == 1;
    assert Next(4, 2) == 3 && Next(3, 2) == 2;
  }

  lemma {:induction false} OnesToTwo(k: nat, l: nat)
    requires k >= 3 && l < k && l % 2 == 1
    ensures Ones(0, k, l) + 1 > 2 && Steps(Ones(0, k, l) + 1, 2) + 1 + (l - 1) / 2 == Most(k)
    decreases k, k - l
  {
    hide Pow2, Round, Ones, Next, SkipHeight, And;
    RoundZero(k + 1);
    RoundZero(k);
    OnesTop(0, k, l);
    Pow2Next(l - 1);
    OddStep(0, k, l, 2);
    if l + 2 < k {
      OnesToTwo(k, l + 2);
    } else {
      NoOnes(0, k);
      OnesAre(0, k, l);
      StepsToTwo(k - 1);
      if l + 2 == k {
        Pow2Next(l);
        OnesTop(0, k, l + 1);
        OnesAre(0, k, l + 1);
        EvenStep(0, k, l, 2);
      }
    }
  }

  /** A multiple of eight with all ones above turns them off one by one. */
  lemma {:induction false} OnesToTop(k: nat, l: nat)
    requires 3 <= l < k
    ensures Ones(0, k, l) > 2 && Steps(Ones(0, k, l), 2) == k - 1 - l + Most(k - 1)
    decreases k - l
  {
    hide Pow2, Round, Ones, Next, InvertLowestOne, SkipHeight;
    RoundZero(k);
    RoundZero(k + 1);
    OnesAre(0, k, l);
    NoOnes(0, k);
    SmallPowers();
    Pow2Grows(3, l);
    if l + 1 == k {
      StepsToTwo(k - 1);
    } else {
      RoundLess(Ones(0, k, l), l, 3);
      var n := RoundIsEven(Ones(0, k, l), 3);
      n := RoundIsEven(n, 2);
      n := RoundIsEven(n, 1);
      EighthNext(n, 2);
      LowestTimes(n);
      OnesToTop(k, l + 1);
    }
  }

  /** From height 2^k - 8 to height two the walk takes as many steps as the limit allows. */
  lemma LimitIsReached(k: nat)
    requires k >= 12
    ensures Pow2(k) >= 10 && Steps(Pow2(k) - 8, 2) == Limit(k)
  {
    hide Pow2, Steps, Most;
    SmallPowers();
    Pow2Next(3);
    Pow2Grows(4, k);
    OnesToTop(k, 3);
  }

  /** Up to height 2^18 the walk takes at most 110 steps, and there is one that does. */
  lemma DocumentedLimit(h: nat, t: nat)
    requires t <= h <= 0x4_0000
    ensures Steps(h, t) <= 110 && Steps(0x4_0000 - 8, 2) == 110
  {
    hide Limit, Steps;
    assert Pow2(18) == 0x4_0000 by {
      Eighteen();
    }
    LimitOfEighteen();
    StepLimit(h, t, 18);
    LimitIsReached(18);
  }

  lemma Eighteen()
    ensures Pow2(18) == 0x4_0000
  {
    assert Pow(2, 8) == 256 && Pow(2, 2) == 4;
    PowAdd(2, 8, 8);
    PowAdd(2, 16, 2);
  }

  lemma LimitOfEighteen()
    ensures Limit(18) == 110
  {
    assert Most(5) == 12;
    assert Most(9) == 32;
    assert Most(13) == 60;
  }
}
