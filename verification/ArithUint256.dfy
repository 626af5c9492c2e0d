/** 256-bit unsigned integers as eight 32-bit limbs, and the arithmetic on them in place. */
module ArithUint256 {
  import opened Radix
  import opened Limbs
  import opened LimbBits
  import C = Compact

  const WIDTH := 8

  /** Two to the power of 256. */
  ghost function Capacity(): nat {
    Weight(WIDTH)
  }

  datatype Outcome = Done | DivisionByZero

  class BaseUint {
    const pn: array<nat>

    ghost predicate Valid()
      reads this, pn
    {
      pn.Length == WIDTH && AreLimbs(pn[..])
    }

    ghost function Value(): nat
      reads this, pn
    {
      Val(pn[..])
    }

    constructor (b: nat)
      requires b < BASE * BASE
      ensures Valid() && fresh(pn) && Value() == b
    {
      pn := new nat[WIDTH](_ => 0);
      new;
      Assign64(b);
    }

    constructor Copy(b: BaseUint)
      requires b.Valid()
      ensures Valid() && fresh(pn) && pn[..] == b.pn[..]
    {
      pn := new nat[WIDTH](_ => 0);
      new;
      for i := 0 to WIDTH
        invariant pn.Length == WIDTH && fresh(pn) && b.Valid() && pn[..i] == b.pn[..i]
        invariant forall j :: 0 <= j < WIDTH ==> pn[j] < BASE
      {
        pn[i] := b.pn[i];
      }
    }

    method Assign64(b: nat)
      requires pn.Length == WIDTH && b < BASE * BASE
      modifies pn
      ensures Valid() && Value() == b
    {
      hide Weight, Val;
      pn[0], pn[1] := b % BASE, b / BASE;
      for i := 2 to WIDTH
        invariant pn[0] == b % BASE && pn[1] == b / BASE && forall j :: 2 <= j < i ==> pn[j] == 0
      {
        pn[i] := 0;
      }
      TwoLimbs(pn[..]);
    }

    method Assign(b: BaseUint)
      requires pn.Length == WIDTH && b.Valid()
      modifies pn
      ensures Valid() && pn[..] == old(b.pn[..])
    {
      for i := 0 to WIDTH
        invariant forall j :: 0 <= j < i ==> pn[j] == old(b.pn[j])
        invariant forall j :: i <= j < WIDTH ==> b.pn[j] == old(b.pn[j])
      {
        pn[i] := b.pn[i];
      }
    }

    method Complement() returns (ret: BaseUint)
      requires Valid()
      ensures ret.Valid() && fresh(ret) && fresh(ret.pn) && ret.Value() == Capacity() - 1 - Value()
    {
      hide Weight, Val;
      ret := new BaseUint(0);
      for i := 0 to WIDTH
        invariant ret.pn.Length == WIDTH && fresh(ret.pn) && Valid()
        invariant forall j :: 0 <= j < i ==> ret.pn[j] == BASE - 1 - pn[j]
      {
        ret.pn[i] := BASE - 1 - pn[i];
      }
      ValOfComplement(pn[..], ret.pn[..]);
    }

    /** Adds one, modulo the capacity. */
    method Increment()
      requires Valid()
      modifies pn
      ensures Valid() && Value() == (old(Value()) + 1) % Capacity()
    {
      hide Weight, Val, Mul;
      ghost var a := pn[..];
      var i := 0;
      var going := true;
      IncrementStart(a);
      while i < WIDTH && going
        invariant 0 <= i <= WIDTH && Incrementing(a, pn[..], i, going)
        decreases WIDTH - i, going
      {
        IncrementStep(a, pn[..], i);
        ghost var now := pn[..];
        pn[i] := (pn[i] + 1) % BASE;
        assert pn[..] == now[i := pn[i]];
        if pn[i] == 0 {
          i := i + 1;
        } else {
          going := false;
        }
      }
      IncrementEnd(a, pn[..], i, going);
    }

    /** The negative, modulo the capacity. */
    method Negate() returns (ret: BaseUint)
      requires Valid()
      ensures ret.Valid() && fresh(ret) && fresh(ret.pn) && ret.Value() == (Capacity() - Value()) % Capacity()
    {
      hide Weight, Val;
      ret := Complement();
      ret.Increment();
    }

    method Add(b: BaseUint)
      requires Valid() && b.Valid()
      modifies pn
      ensures Valid() && Value() == (old(Value()) + old(b.Value())) % Capacity()
    {
      hide Weight, Val, Mul, Adding;
      ghost var x, y := pn[..], b.pn[..];
      AddStart(x, y);
      var carry: nat := 0;
      for i := 0 to WIDTH
        invariant Adding(x, y, pn[..], i, carry) && b.pn[i..] == y[i..]
        invariant forall j :: i <= j < WIDTH ==> pn[j] == x[j]
      {
        AddStep(x, y, pn[..], i, carry);
        assert b.pn[i] == b.pn[i..][0] == y[i];
        ghost var now := pn[..];
        var n: nat := carry + pn[i] + b.pn[i];
        pn[i] := n % BASE;
        assert pn[..] == now[i := pn[i]];
        carry := n / BASE;
      }
      AddEnd(x, y, pn[..], carry);
    }

    method Subtract(b: BaseUint)
      requires Valid() && b.Valid()
      modifies pn
      ensures Valid() && Value() == (old(Value()) - old(b.Value())) % Capacity()
    {
      hide Weight, Val;
      var negative := b.Negate();
      ghost var x, y := Value(), b.Value();
      ValBound(b.pn[..]);
      Add(negative);
      ModuloMinus(x, y, Capacity());
    }

    /** The product modulo the capacity; no sum exceeds 64 bits on the way. */
    method Multiply(b: BaseUint)
      requires Valid() && b.Valid()
      modifies pn
      ensures Valid() && Value() == (old(Value()) * old(b.Value())) % Capacity()
    {
      hide Weight, Val, Mul, Product, Multiplying;
      var a := new BaseUint(0);
      a.MultiplyInto(pn[..], b.pn[..]);
      Assign(a);
    }

    /** Schoolbook multiplication of two lists of limbs into this number, which is zero. */
    method MultiplyInto(p: seq<nat>, b: seq<nat>)
      requires Valid() && Value() == 0 && |p| == |b| == WIDTH && AreLimbs(p) && AreLimbs(b)
      modifies pn
      ensures Valid() && Value() == (Val(p) * Val(b)) % Capacity()
    {
      hide Weight, Val, Mul, Product, Multiplying;
      ghost var lost := 0;
      ProductOfNothing(p, b, pn[..]);
      for j := 0 to WIDTH
        invariant Product(p, b, pn[..], j, lost) && AreLimbs(pn[..])
      {
        ghost var before := pn[..];
        MultiplyStart(before, b, j, p[j]);
        var carry: nat := 0;
        for i := 0 to WIDTH - j
          invariant Multiplying(before, b, pn[..], j, i, p[j], carry) && pn[i + j..] == before[i + j..]
        {
          MultiplyStep(before, b, pn[..], j, i, p[j], carry);
          assert pn[i + j] == pn[i + j..][0] == before[i + j];
          ghost var now := pn[..];
          MulIs(p[j], b[i]);
          var n: nat := carry + pn[i + j] + p[j] * b[i];
          assert n < BASE * BASE;
          pn[i + j] := n % BASE;
          assert pn[..] == now[i + j := pn[i + j]];
          carry := n / BASE;
        }
        lost := ProductStep(p, b, before, pn[..], j, lost, carry);
        ProductLimbs(p, b, pn[..], j + 1, lost);
      }
      ProductEnd(p, b, pn[..], lost);
      MulIs(Val(p), Val(b));
    }

    method ShiftLeft(shift: nat)
      requires Valid()
      modifies pn
      ensures Valid() && Value() == (old(Value()) * Pow2(shift)) % Capacity()
    {
      hide Weight, Val, Mul, Pow2, PartLeft, Over, Up;
      var a := pn[..];
      Clear();
      var k, s := shift / 32, shift % 32;
      LeftBegin(a, pn[..], k, s);
      for i := 0 to WIDTH
        invariant PartLeft(a, pn[..], k, s, i)
      {
        LeftStep(a, pn[..], k, s, i);
        ghost var now := pn[..];
        if i + k + 1 < WIDTH && s != 0 {
          pn[i + k + 1] := Or(pn[i + k + 1], Over(a[i], s));
        }
        ghost var r1 := if i + k + 1 < |a| && s != 0 then now[i + k + 1 := Or(now[i + k + 1], Over(a[i], s))] else now;
        assert pn[..] == r1;
        if i + k < WIDTH {
          pn[i + k] := Or(pn[i + k], Up(a[i], s));
        }
        assert pn[..] == if i + k < |a| then r1[i + k := Or(r1[i + k], Up(a[i], s))] else r1;
      }
      LeftFinish(a, pn[..], k, s);
      MulIs(Val(a), Pow2(shift));
    }

    method ShiftRight(shift: nat)
      requires Valid()
      modifies pn
      ensures Valid() && Value() == old(Value()) / Pow2(shift)
    {
      hide Weight, Val, Mul, Pow2, PartRight, Down, Up;
      var a := pn[..];
      Clear();
      var k, s := shift / 32, shift % 32;
      RightBegin(a, pn[..], k, s);
      for i := 0 to WIDTH
        invariant PartRight(a, pn[..], k, s, i)
      {
        RightStep(a, pn[..], k, s, i);
        ghost var now := pn[..];
        if i - k - 1 >= 0 && s != 0 {
          pn[i - k - 1] := Or(pn[i - k - 1], Up(a[i], 32 - s));
        }
        ghost var r1 := if i - k - 1 >= 0 && s != 0 then now[i - k - 1 := Or(now[i - k - 1], Up(a[i], 32 - s))]
            else now;
        assert pn[..] == r1;
        if i - k >= 0 {
          pn[i - k] := Or(pn[i - k], Down(a[i], s));
        }
        assert pn[..] == if i - k >= 0 then r1[i - k := Or(r1[i - k], Down(a[i], s))] else r1;
      }
      RightFinish(a, pn[..], k, s);
    }

    method Clear()
      requires pn.Length == WIDTH
      modifies pn
      ensures Zeroes(pn[..])
    {
      for i := 0 to WIDTH
        invariant forall j :: 0 <= j < i ==> pn[j] == 0
      {
        pn[i] := 0;
      }
    }

    method CompareTo(b: BaseUint) returns (r: int)
      requires Valid() && b.Valid()
      ensures r == if Value() < b.Value() then -1 else if Value() > b.Value() then 1 else 0
    {
      hide Weight, Val;
      var i := WIDTH;
      while i > 0
        invariant 0 <= i <= WIDTH && pn[i..] == b.pn[i..]
      {
        i := i - 1;
        if pn[i] < b.pn[i] {
          HighestDecides(pn[..], b.pn[..], i);
          return -1;
        }
        if pn[i] > b.pn[i] {
          HighestDecides(b.pn[..], pn[..], i);
          return 1;
        }
      }
      assert pn[..] == pn[0..] && b.pn[..] == b.pn[0..];
      return 0;
    }

    method Bits() returns (n: nat)
      requires Valid()
      ensures n == BitCount(Value())
    {
      hide Weight, Val, Pow2;
      var pos := WIDTH;
      while pos > 0
        invariant 0 <= pos <= WIDTH && Zeroes(pn[pos..])
      {
        pos := pos - 1;
        if pn[pos] != 0 {
          LimbTop(pn[pos]);
          var nbits := 31;
          while nbits > 0
            invariant 0 <= nbits <= 31 && pn[pos] < Pow2(nbits + 1)
          {
            TopBit(pn[pos], nbits);
            if pn[pos] / Pow2(nbits) % 2 == 1 {
              TopLimb(pn[..], pos, nbits);
              return 32 * pos + nbits + 1;
            }
            nbits := nbits - 1;
          }
          Pow2Next(0);
          TopLimb(pn[..], pos, 0);
          return 32 * pos + 1;
        }
      }
      assert pn[..] == pn[0..];
      ValOfZeroes(pn[..]);
      return 0;
    }

    /** Decides one bit of the quotient: the shifted divisor is subtracted if it fits. */
    method DecideBit(num: BaseUint, div: BaseUint, shift: nat, ghost n: nat, ghost d: nat)
      requires Valid() && num.Valid() && div.Valid() && num.pn != pn && div.pn != num.pn && div.pn != pn
      requires shift < 32 * WIDTH
      requires Dividing(n, d, Value(), num.Value(), shift) && ClearBelow(pn[..], shift + 1)
      requires div.Value() == Mul(d, Pow2(shift))
      modifies pn, num.pn
      ensures Valid() && num.Valid() && Dividing(n, d, Value(), num.Value(), shift - 1) && ClearBelow(pn[..], shift)
    {
      hide Weight, Val, Pow2, Mul, Dividing, ClearBelow;
      DivideStep(n, d, Value(), num.Value(), shift);
      SetBit(pn[..], shift);
      ghost var now, v := pn[..], num.Value();
      ValBound(num.pn[..]);
      var order := num.CompareTo(div);
      if order >= 0 {
        num.Subtract(div);
        NoBorrow(v, div.Value(), Capacity());
        pn[shift / 32] := Or(pn[shift / 32], Pow2(shift % 32));
        assert pn[..] == now[shift / 32 := pn[shift / 32]];
      }
    }

    /** Floor division; on division by zero the number is zero already. */
    method Divide(b: BaseUint) returns (r: Outcome)
      requires Valid() && b.Valid()
      modifies pn
      ensures Valid() && (r == DivisionByZero <==> old(b.Value()) == 0)
      ensures Value() == if old(b.Value()) == 0 then 0 else old(Value()) / old(b.Value())
    {
      hide Weight, Val, Pow2, Mul, Dividing, ClearBelow;
      ghost var n, d := Value(), b.Value();
      var div := new BaseUint.Copy(b);
      var num := new BaseUint.Copy(this);
      Clear();
      LeftOut(pn[..]);
      var numBits := num.Bits();
      var divBits := div.Bits();
      ValBound(num.pn[..]);
      if divBits == 0 {
        return DivisionByZero;
      }
      if divBits > numBits {
        FewerBits(n, d);
        return Done;
      }
      var shift: int := numBits - divBits;
      AlignedStart(n, d, pn[..]);
      div.ShiftLeft(shift);
      while shift >= 0
        invariant -1 <= shift < 32 * WIDTH && Valid() && div.Valid() && num.Valid()
        invariant fresh(div) && fresh(num) && fresh(div.pn) && fresh(num.pn) && div.pn != num.pn && div.pn != pn
        invariant num.pn != pn
        invariant Dividing(n, d, Value(), num.Value(), shift) && ClearBelow(pn[..], shift + 1)
        invariant shift >= 0 ==> div.Value() == Mul(d, Pow2(shift))
      {
        DecideBit(num, div, shift, n, d);
        div.ShiftRight(1);
        if shift > 0 {
          HalfDivisor(d, shift);
        }
        shift := shift - 1;
      }
      DivideEnd(n, d, Value(), num.Value());
      return Done;
    }

    method GetLow64() returns (r: nat)
      requires Valid()
      ensures r == Value() % (BASE * BASE)
    {
      r := pn[0] + pn[1] * BASE;
      LowLimbs(pn[..]);
    }

    method SetCompact(code: nat) returns (negative: bool, overflow: bool)
      requires Valid() && code < BASE
      modifies pn
      ensures Valid() && Value() == C.Expand(code) % Capacity()
      ensures negative == C.Negative(code) && overflow == C.Overflow(code)
    {
      hide Weight, Val, Mul, Pow2, C.P;
      var size, word := code / C.EXPONENT, code % C.SIGN;
      C.WordFits(code);
      if size <= 3 {
        word := word / C.P(3 - size);
        Assign64(word);
        FitsCapacity(word);
      } else {
        Assign64(word);
        C.PIsPow2(size - 3);
        MulIs(word, C.P(size - 3));
        ShiftLeft(8 * (size - 3));
      }
      negative := word != 0 && code / C.SIGN % 2 == 1;
      overflow := word != 0 && (size > 34 || (word > 0xff && size > 33) || (word > 0xffff && size > 32));
    }

    /** The three leading bytes, left aligned, and the number of bytes. */
    method LeadingBytes() returns (lead: nat, size: nat)
      requires Valid()
      ensures lead == C.Leading(Value()) && size == C.ByteCount(Value())
    {
      hide Weight, Val, Mul, Pow2, C.P, BitCount;
      ghost var x := Value();
      C.LeadingFits(x);
      var bits := Bits();
      size := (bits + 7) / 8;
      if size <= 3 {
        var low := GetLow64();
        ShortNumber(x);
        lead := Mul(low, C.P(3 - size));
      } else {
        var bn := new BaseUint.Copy(this);
        C.PIsPow2(size - 3);
        bn.ShiftRight(8 * (size - 3));
        lead := bn.GetLow64();
      }
    }

    method GetCompact(negative: bool) returns (code: nat)
      requires Valid()
      ensures code == C.Code(Value(), negative) < BASE
    {
      hide Weight, Val, C.P, C.Leading, C.ByteCount;
      ghost var x := Value();
      ValBound(pn[..]);
      CapacityIsP();
      C.LeadingFits(x);
      C.CodeFits(x, negative);
      var size;
      code, size := LeadingBytes();
      SignBit(code);
      if code / C.SIGN % 2 == 1 {
        code := code / 256;
        size := size + 1;
      }
      assert code < C.SIGN && size < 256;
      code := code + size * C.EXPONENT + (if negative && code != 0 then C.SIGN else 0);
    }
  }

  lemma SignBit(lead: nat)
    requires lead < C.EXPONENT
    ensures lead / C.SIGN % 2 == 1 <==> lead >= C.SIGN
  {
  }

  /** The work of a block: two to the power of 256 over one more than the target. */
  method GetBlockProof(bits: nat) returns (r: BaseUint)
    requires bits < BASE
    ensures r.Valid() && fresh(r)
    ensures r.Value() == if C.Negative(bits) || C.Overflow(bits) || C.Expand(bits) == 0 then 0
              else Capacity() / (C.Expand(bits) + 1)
  {
    hide Weight, Val, C.P, Mul, C.Expand;
    var target := new BaseUint(0);
    var negative, overflow := target.SetCompact(bits);
    C.OverflowIsExact(bits);
    CapacityIsP();
    if !overflow {
      NoBorrow(C.Expand(bits), 0, Capacity());
    }
    var zero := new BaseUint(0);
    var order := target.CompareTo(zero);
    if negative || overflow || order == 0 {
      return zero;
    }
    NotAllOnes(bits);
    r := ProofOfTarget(target);
  }

  method ProofOfTarget(target: BaseUint) returns (r: BaseUint)
    requires target.Valid() && 0 < target.Value() && target.Value() + 1 < Capacity()
    ensures r.Valid() && fresh(r) && fresh(r.pn) && r.Value() == Capacity() / (target.Value() + 1)
  {
    hide Weight, Val;
    ghost var t := target.Value();
    var one := new BaseUint(1);
    var next := new BaseUint.Copy(target);
    next.Add(one);
    NoBorrow(t + 1, 0, Capacity());
    r := target.Complement();
    var outcome := r.Divide(next);
    assert outcome == Done;
    r.Add(one);
    ProofAlgebra(t, Capacity());
  }

  lemma TwoLimbs(s: seq<nat>)
    requires |s| >= 2 && forall j :: 2 <= j < |s| ==> s[j] == 0
    ensures Val(s) == s[0] + s[1] * BASE
  {
    ValSplit(s, 2);
    ValOfZeroes(s[2..]);
    assert s[..2][..1] == [s[0]] && [s[0]][..0] == [];
    assert Val([s[0]]) == s[0];
    assert Weight(1) == BASE;
  }

  lemma ModuloMinus(x: nat, y: nat, m: nat)
    requires m > 0 && y < m
    ensures (x + (m - y) % m) % m == (x - y) % m
  {
    var q, r := (x - y) / m, (x - y) % m;
    assert x - y == q * m + r;
    if y == 0 {
      DivideBack(1, 0, m);
    } else {
      DivideBack(0, m - y, m);
      assert x + (m - y) == (q + 1) * m + r;
      DivideBack(q + 1, r, m);
    }
  }

  // ---------- adding one ----------

  /** Limbs below `i` have wrapped around; the one is still to be added at `i`, or has been added. */
  ghost predicate Incrementing(a: seq<nat>, r: seq<nat>, i: nat, going: bool) {
    && |r| == |a| && i <= |a| && AreLimbs(r)
    && if going then Val(r) + Weight(i) == Val(a) + 1 && r[i..] == a[i..] else Val(r) == Val(a) + 1
  }

  lemma IncrementStart(a: seq<nat>)
    requires AreLimbs(a)
    ensures Incrementing(a, a, 0, true)
  {
    WeightNext(0);
  }

  lemma IncrementStep(a: seq<nat>, r: seq<nat>, i: nat)
    requires Incrementing(a, r, i, true) && i < |a|
    ensures var x := (r[i] + 1) % BASE;
            Incrementing(a, r[i := x], if x == 0 then i + 1 else i, x == 0)
  {
    hide Weight, Val, Mul;
    var x := (r[i] + 1) % BASE;
    var next := r[i := x];
    WeightNext(i);
    if x == 0 {
      ValUpdate(next, i, BASE - 1);
      assert next[i := next[i] + (BASE - 1)] == r;
      MulIs(BASE - 1, Weight(i));
      assert next[i + 1..] == a[i + 1..];
    } else {
      ValUpdate(r, i, 1);
      MulIs(1, Weight(i));
    }
  }

  lemma IncrementEnd(a: seq<nat>, r: seq<nat>, i: nat, going: bool)
    requires Incrementing(a, r, i, going) && (i == |a| || !going) && AreLimbs(a)
    ensures AreLimbs(r) && Val(r) == (Val(a) + 1) % Weight(|a|)
  {
    hide Weight, Val;
    ValBound(r);
    if going {
      DivideBack(1, Val(r), Weight(|a|));
    } else {
      DivideBack(0, Val(r), Weight(|a|));
    }
  }

  // ---------- multiplying and shifting ----------

  lemma ProductOfNothing(p: seq<nat>, b: seq<nat>, a: seq<nat>)
    requires |p| == |b| == |a| && AreLimbs(a) && Val(a) == 0
    ensures Product(p, b, a, 0, 0)
  {
    hide Weight;
    assert Val(p[..0]) == 0;
  }

  lemma ProductLimbs(p: seq<nat>, b: seq<nat>, a: seq<nat>, j: nat, lost: nat)
    requires Product(p, b, a, j, lost)
    ensures AreLimbs(a)
  {
  }

  lemma LeftBegin(a: seq<nat>, r: seq<nat>, k: nat, s: nat)
    requires |r| == |a| && Zeroes(r) && s < 32
    ensures PartLeft(a, r, k, s, 0)
  {
  }

  lemma LeftFinish(a: seq<nat>, r: seq<nat>, k: nat, s: nat)
    requires AreLimbs(a) && s < 32 && PartLeft(a, r, k, s, |a|)
    ensures AreLimbs(r) && Val(r) == Mul(Val(a), Pow2(32 * k + s)) % Weight(|a|)
  {
    hide Weight, Val, Mul, Pow2, Over, Up;
    assert ShiftedLeft(a, r, k, s);
    LeftLimbs(a, r, k, s);
    LeftVal(a, r, k, s);
  }

  lemma RightBegin(a: seq<nat>, r: seq<nat>, k: nat, s: nat)
    requires |r| == |a| && Zeroes(r) && s < 32
    ensures PartRight(a, r, k, s, 0)
  {
  }

  lemma RightFinish(a: seq<nat>, r: seq<nat>, k: nat, s: nat)
    requires AreLimbs(a) && s < 32 && PartRight(a, r, k, s, |a|)
    ensures AreLimbs(r) && Val(r) == Val(a) / Pow2(32 * k + s)
  {
    hide Weight, Val, Mul, Pow2, Down, Up;
    assert ShiftedRight(a, r, k, s);
    RightLimbs(a, r, k, s);
    RightVal(a, r, k, s);
  }

  // ---------- counting bits ----------

  lemma LimbTop(x: nat)
    requires x < BASE
    ensures x < Pow2(31 + 1)
  {
    Pow2Limb();
  }

  /** Below twice a power of two, the bit at the power tells on which side a number is. */
  lemma TopBit(x: nat, n: nat)
    requires x < Pow2(n + 1)
    ensures x / Pow2(n) % 2 == 1 <==> x >= Pow2(n)
  {
    Pow2Next(n);
    hide Pow2;
    if x >= Pow2(n) {
      DivideBack(1, x - Pow2(n), Pow2(n));
    } else {
      DivideBack(0, x, Pow2(n));
    }
  }

  /** The highest bit of the highest limb is the highest bit. */
  lemma TopLimb(s: seq<nat>, pos: nat, n: nat)
    requires AreLimbs(s) && pos < |s| && Zeroes(s[pos + 1..]) && Pow2(n) <= s[pos] < Pow2(n + 1)
    ensures BitCount(Val(s)) == 32 * pos + n + 1
  {
    hide Weight, Val, Pow2, Mul;
    ValSplitMul(s, pos + 1);
    LeftOut(s[pos + 1..]);
    ValNextMul(s, pos);
    ValBound(s[..pos]);
    Pow2Weight(pos);
    Pow2Add(n, 32 * pos);
    Pow2Add(n + 1, 32 * pos);
    TopAlgebra(s[pos], Pow2(n), Pow2(n + 1), Weight(pos), Val(s[..pos]), Weight(pos + 1));
    BitCountIs(Val(s), 32 * pos + n + 1);
  }

  lemma TopAlgebra(x: nat, lo: nat, hi: nat, w: nat, v: nat, z: nat)
    requires lo <= x < hi && v < w
    ensures Mul(lo, w) <= v + Mul(x, w) < Mul(hi, w) && Mul(z, 0) == 0
  {
    MulLe(lo, x, w);
    MulLe(x + 1, hi, w);
    assert (x + 1) * w == x * w + w;
  }

  // ---------- dividing ----------

  /** The quotient so far and what is left of the number, when bits above `shift` have been decided. */
  ghost predicate Dividing(n: nat, d: nat, q: nat, left: nat, shift: int) {
    shift >= -1 && d > 0 && n == Mul(q, d) + left && left < Mul(d, Pow2(shift + 1))
  }

  lemma CapacityIs()
    ensures Capacity() == Pow2(256)
  {
    Pow2Weight(8);
  }

  lemma FewerBits(n: nat, d: nat)
    requires BitCount(d) > BitCount(n)
    ensures d > 0 && n / d == 0
  {
    hide Pow2;
    BitCountBounds(n);
    BitCountBounds(d);
    Pow2Grows(BitCount(n), BitCount(d) - 1);
    DivideBack(0, n, d);
  }

  lemma SomeBits(v: nat)
    ensures BitCount(v) > 0 ==> v > 0 && Pow2(BitCount(v) - 1) <= v
    ensures v < Pow2(BitCount(v))
  {
    hide Pow2;
    BitCountBounds(v);
  }

  lemma AlignedShift(n: nat)
    requires n < Capacity()
    ensures BitCount(n) <= 256
  {
    hide Pow2, Capacity, BitCount;
    SomeBits(n);
    CapacityIs();
    if BitCount(n) > 256 {
      Pow2Grows(256, BitCount(n) - 1);
    }
  }

  /** Twice the aligned divisor exceeds the number. */
  lemma AlignedDividing(n: nat, d: nat)
    requires 0 < BitCount(d) <= BitCount(n)
    ensures Dividing(n, d, 0, n, BitCount(n) - BitCount(d))
  {
    hide Pow2, Mul, BitCount;
    var shift := BitCount(n) - BitCount(d);
    SomeBits(n);
    SomeBits(d);
    Pow2Add(BitCount(d) - 1, shift + 1);
    MulMonotone(Pow2(BitCount(d) - 1), d, Pow2(shift + 1));
    NoProduct(d);
  }

  /** The aligned divisor still fits. */
  lemma AlignedProduct(n: nat, d: nat)
    requires 0 < BitCount(d) <= BitCount(n) && n < Capacity()
    ensures var shift := BitCount(n) - BitCount(d);
            (d * Pow2(shift)) % Capacity() == Mul(d, Pow2(shift))
  {
    hide Pow2, Mul, Capacity, BitCount;
    var shift := BitCount(n) - BitCount(d);
    SomeBits(d);
    AlignedShift(n);
    CapacityIs();
    Pow2Add(BitCount(d), shift);
    MulStrict(d, Pow2(BitCount(d)), Pow2(shift));
    Pow2Grows(BitCount(n), 256);
    SmallModulo(d, Pow2(shift), Capacity());
  }

  /** Aligned to the number, the divisor still fits, and twice the divisor exceeds the number. */
  lemma AlignedStart(n: nat, d: nat, zero: seq<nat>)
    requires 0 < BitCount(d) <= BitCount(n) && n < Capacity() && Zeroes(zero)
    ensures var shift := BitCount(n) - BitCount(d);
            && shift < 32 * WIDTH && Dividing(n, d, 0, n, shift) && ClearBelow(zero, shift + 1)
            && (d * Pow2(shift)) % Capacity() == Mul(d, Pow2(shift))
  {
    hide Pow2, Mul, Capacity, BitCount, Dividing, ClearBelow, Zeroes;
    AlignedShift(n);
    AlignedDividing(n, d);
    AlignedProduct(n, d);
    ClearZeroes(zero, BitCount(n) - BitCount(d) + 1);
  }

  lemma SmallModulo(a: nat, b: nat, m: nat)
    requires Mul(a, b) < m
    ensures (a * b) % m == Mul(a, b)
  {
    DivideBack(0, Mul(a, b), m);
  }

  lemma NoProduct(d: nat)
    ensures Mul(0, d) == 0
  {
  }

  lemma MulMonotone(a: nat, b: nat, c: nat)
    requires a <= b
    ensures Mul(a, c) <= Mul(b, c)
  {
    MulLe(a, b, c);
  }

  lemma MulStrict(a: nat, b: nat, c: nat)
    requires a < b && c > 0
    ensures Mul(a, c) < Mul(b, c)
  {
    MulLe(a + 1, b, c);
    assert (a + 1) * c == a * c + c;
  }

  /** One bit of the quotient: the shifted divisor is taken out if it fits. */
  lemma DivideStep(n: nat, d: nat, q: nat, left: nat, shift: nat)
    requires Dividing(n, d, q, left, shift)
    ensures var part := Mul(d, Pow2(shift));
            if left >= part then Dividing(n, d, q + Pow2(shift), left - part, shift - 1)
                else Dividing(n, d, q, left, shift - 1)
  {
    hide Pow2;
    Pow2Next(shift);
    var p := Pow2(shift);
    assert d * (2 * p) == d * p + d * p;
    assert (q + p) * d == q * d + d * p;
  }

  lemma HalfDivisor(d: nat, shift: nat)
    requires shift > 0
    ensures Mul(d, Pow2(shift)) / Pow2(1) == Mul(d, Pow2(shift - 1))
  {
    Pow2Next(shift - 1);
    Pow2Next(0);
    HalfOf(d, shift);
  }

  lemma NoBorrow(x: nat, y: nat, m: nat)
    requires y <= x < m
    ensures (x - y) % m == x - y
  {
    DivideBack(0, x - y, m);
  }

  lemma DivideEnd(n: nat, d: nat, q: nat, left: nat)
    requires Dividing(n, d, q, left, -1)
    ensures d > 0 && q == n / d
  {
    Pow2Next(0);
    hide Pow2;
    assert Mul(d, 1) == d;
    DivideBack(q, left, d);
  }

  function Clamp(x: int): nat {
    if x < 0 then 0 else if x > 32 then 32 else x
  }

  /** The lowest `n` bits are zero. */
  ghost predicate ClearBelow(s: seq<nat>, n: int) {
    forall i :: 0 <= i < |s| ==> s[i] % Pow2(Clamp(n - 32 * i)) == 0
  }

  lemma ClearZeroes(s: seq<nat>, n: int)
    requires Zeroes(s)
    ensures ClearBelow(s, n)
  {
    hide Pow2;
    forall i | 0 <= i < |s|
      ensures s[i] % Pow2(Clamp(n - 32 * i)) == 0
    {
      DivideBack(0, 0, Pow2(Clamp(n - 32 * i)));
    }
  }

  /** Setting the bit above the clear ones adds its power of two. */
  lemma SetBit(s: seq<nat>, n: nat)
    requires AreLimbs(s) && ClearBelow(s, n + 1) && n < 32 * |s|
    ensures ClearBelow(s, n)
    ensures var m := n / 32;
            var r := s[m := Or(s[m], Pow2(n % 32))];
            AreLimbs(r) && ClearBelow(r, n) && Val(r) == Val(s) + Pow2(n)
  {
    hide Pow2, Mul, Val, Weight, Or;
    var m, t := n / 32, n % 32;
    OrBit(s[m], t);
    var r := s[m := Or(s[m], Pow2(t))];
    forall i | 0 <= i < |s|
      ensures s[i] % Pow2(Clamp(n - 32 * i)) == 0 && r[i] % Pow2(Clamp(n - 32 * i)) == 0
    {
      if i > m {
        Pow2Next(0);
      }
    }
    ValUpdate(s, m, Pow2(t));
    Pow2Weight(m);
    Pow2Add(t, 32 * m);
  }

  lemma OrBit(x: nat, t: nat)
    requires x < BASE && t < 32 && x % Pow2(t + 1) == 0
    ensures Or(x, Pow2(t)) == x + Pow2(t) < BASE && x % Pow2(t) == 0 && (x + Pow2(t)) % Pow2(t) == 0
  {
    hide Pow2, Or;
    var p := Pow2(t);
    Pow2Next(t);
    var q := x / Pow2(t + 1);
    DivMod(x, Pow2(t + 1));
    MulIs(q, Pow2(t + 1));
    OrComm(x, p);
    OrAdds(p, q, t + 1);
    assert q * (2 * p) == (2 * q) * p && (2 * q + 1) * p == (2 * q) * p + p;
    DivideBack(2 * q, 0, p);
    DivideBack(2 * q + 1, 0, p);
    RoomForBit(x, q, t);
  }

  /** A multiple of a power of two below the base leaves room for that power. */
  lemma RoomForBit(x: nat, q: nat, t: nat)
    requires t < 32 && x < BASE && x == q * Pow2(t + 1)
    ensures x + Pow2(t) < BASE
  {
    hide Pow2;
    Pow2Next(t);
    var p, h := Pow2(t + 1), Pow2(31 - t);
    HalvesOfLimb(t + 1);
    assert p * h == h * p;
    MulLe(h, q, p);
    MulLe(q + 1, h, p);
    assert (q + 1) * p == q * p + p;
  }

  // ---------- the compact form ----------

  lemma LowLimbs(s: seq<nat>)
    requires AreLimbs(s) && |s| >= 2
    ensures s[0] + s[1] * BASE == Val(s) % (BASE * BASE)
  {
    hide Val, Weight;
    ValSplit(s, 2);
    TwoLimbs(s[..2]);
    WeightNext(0);
    WeightNext(1);
    LowPart(s[0], s[1], Val(s[2..]));
  }

  lemma LowPart(a: nat, b: nat, high: nat)
    requires a < BASE && b < BASE
    ensures (a + b * BASE + BASE * BASE * high) % (BASE * BASE) == a + b * BASE
  {
    DivideBack(high, a + b * BASE, BASE * BASE);
  }

  lemma CapacityIsP()
    ensures Capacity() == C.P(32)
  {
    CapacityIs();
    C.PIsPow2(32);
  }

  lemma FitsCapacity(w: nat)
    requires w < BASE
    ensures w % Capacity() == w
  {
    hide Weight;
    WeightNext(0);
    WeightNext(1);
    WeightAdd(2, 6);
    MulLe(1, Weight(6), Weight(2));
    DivideBack(0, w, Capacity());
  }

  lemma ShortNumber(x: nat)
    requires C.ByteCount(x) <= 3
    ensures x < C.EXPONENT
  {
    hide C.P, BitCount;
    if x > 0 {
      C.ByteCountBounds(x);
      C.ThreeBytes();
      C.PGrows(C.ByteCount(x), 3);
    }
  }

  /** No target is the largest number, so that one can be added to it. */
  lemma NotAllOnes(bits: nat)
    requires !C.Overflow(bits)
    ensures C.Expand(bits) + 1 < Capacity()
  {
    hide C.P, Capacity, Mul, C.Word, C.Size, C.Overflow;
    C.OverflowIsExact(bits);
    CapacityIsP();
    C.WordFits(bits);
    C.ThreeBytes();
    C.PGrows(3, 32);
    if C.Size(bits) > 3 {
      var k := C.Size(bits) - 4;
      C.PNext(k);
      C.PNext(31);
      WholeBytes(C.Word(bits), C.P(k));
    }
  }

  lemma WholeBytes(w: nat, p: nat)
    ensures Mul(w, 256 * p) == 256 * Mul(w, p)
  {
    assert w * (256 * p) == 256 * (w * p);
  }

  lemma ProofAlgebra(t: nat, m: nat)
    requires 0 < t && t + 1 < m
    ensures ((m - 1 - t) / (t + 1) + 1) % m == m / (t + 1)
  {
    var q, r := m / (t + 1), m % (t + 1);
    DivMod(m, t + 1);
    assert q >= 1 by {
      if q == 0 {
        assert false;
      }
    }
    assert m - 1 - t == (q - 1) * (t + 1) + r by {
      assert (q - 1) * (t + 1) == q * (t + 1) - (t + 1);
    }
    DivideBack(q - 1, r, t + 1);
    MulLe(2, t + 1, q);
    DivideBack(0, q, m);
  }
}
