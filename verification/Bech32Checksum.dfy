/** The checksum of Bech32: a remainder of polynomials over the field of 32 elements, packed into 30 bits. */
module Bech32Checksum {
  type Byte = bv8

  const MODULUS_BITS: bv32 := 0x40000000

  function Wide(b: Byte): (r: bv32)
    ensures r < 256
  {
    b as bv32
  }

  /** Addition in the field, symbol by symbol. */
  function Plus(a: bv32, b: bv32): bv32 {
    a ^ b
  }

  function Term(c0: bv32, bit: bv32, k: bv32): bv32 {
    if c0 & bit != 0 then k else 0
  }

  /** What is added for the five bits that are shifted out. */
  function Fold(c0: bv32): bv32 {
    Plus(Plus(Plus(Plus(Term(c0, 1, 0x3b6a57b2), Term(c0, 2, 0x26508e6d)), Term(c0, 4, 0x1ea119fa)),
        Term(c0, 8, 0x3d4233dd)),
         Term(c0, 16, 0x2a1462b3))
  }

  function Top(c: bv32): bv32 {
    c >> 25
  }

  function Up(c: bv32): bv32 {
    (c & 0x1ffffff) << 5
  }

  /** One more coefficient: the remainder times x, plus `v`, reduced. */
  function Step(c: bv32, v: bv32): bv32 {
    Plus(Plus(Up(c), v), Fold(Top(c)))
  }

  /** The remainder after the coefficients `v`, from remainder `c` on. */
  function Poly(c: bv32, v: seq<Byte>): bv32
    decreases |v|
  {
    if v == [] then c else Poly(Step(c, Wide(v[0])), v[1..])
  }

  /** Adds the multiple of the generator for each bit of `c0`. */
  method Reduce(d: bv32, c0: bv32) returns (c: bv32)
    ensures c == Plus(d, Fold(c0))
  {
    hide Plus, Term;
    c := d;
    TermAdds(c, c0, 1, 0x3b6a57b2);
    if c0 & 1 != 0 {
      c := Plus(c, 0x3b6a57b2);
    }
    TermAdds(c, c0, 2, 0x26508e6d);
    if c0 & 2 != 0 {
      c := Plus(c, 0x26508e6d);
    }
    TermAdds(c, c0, 4, 0x1ea119fa);
    if c0 & 4 != 0 {
      c := Plus(c, 0x1ea119fa);
    }
    TermAdds(c, c0, 8, 0x3d4233dd);
    if c0 & 8 != 0 {
      c := Plus(c, 0x3d4233dd);
    }
    TermAdds(c, c0, 16, 0x2a1462b3);
    if c0 & 16 != 0 {
      c := Plus(c, 0x2a1462b3);
    }
    PlusChain(d, Term(c0, 1, 0x3b6a57b2), Term(c0, 2, 0x26508e6d), Term(c0, 4, 0x1ea119fa), Term(c0, 8, 0x3d4233dd),
        Term(c0, 16, 0x2a1462b3));
  }

  lemma TermAdds(c: bv32, c0: bv32, bit: bv32, k: bv32)
    ensures Plus(c, Term(c0, bit, k)) == if c0 & bit != 0 then Plus(c, k) else c
  {
    hide Plus;
    PlusZero(c);
  }

  lemma PlusZero(x: bv32)
    ensures Plus(x, 0) == x && Plus(0, x) == x && Plus(x, x) == 0
  {
  }

  lemma PlusAssoc(a: bv32, b: bv32, c: bv32)
    ensures Plus(Plus(a, b), c) == Plus(a, Plus(b, c))
  {
  }

  lemma PlusSwap(a: bv32, b: bv32, c: bv32, d: bv32)
    ensures Plus(Plus(a, b), Plus(c, d)) == Plus(Plus(a, c), Plus(b, d))
  {
    hide Plus;
    PlusAssoc(a, b, Plus(c, d));
    PlusAssoc(b, c, d);
    PlusComm(b, c);
    PlusAssoc(c, b, d);
    PlusAssoc(a, c, Plus(b, d));
  }

  lemma PlusComm(a: bv32, b: bv32)
    ensures Plus(a, b) == Plus(b, a)
  {
  }

  lemma PlusChain(d: bv32, a: bv32, b: bv32, c: bv32, e: bv32, f: bv32)
    ensures Plus(Plus(Plus(Plus(Plus(d, a), b), c), e), f) == Plus(d, Plus(Plus(Plus(Plus(a, b), c), e), f))
  {
    hide Plus;
    PlusAssoc(d, a, b);
    PlusAssoc(d, Plus(a, b), c);
    PlusAssoc(d, Plus(Plus(a, b), c), e);
    PlusAssoc(d, Plus(Plus(Plus(a, b), c), e), f);
  }

  method PolyMod(v: seq<Byte>) returns (c: bv32)
    ensures c == Poly(1, v)
  {
    hide Fold, Top, Up, Plus;
    c := 1;
    assert v[0..] == v;
    for i := 0 to |v|
      invariant Poly(c, v[i..]) == Poly(1, v)
    {
      var c0 := Top(c);
      ghost var before := c;
      c := Plus(Up(c), Wide(v[i]));
      c := Reduce(c, c0);
      assert c == Step(before, Wide(v[i]));
      assert v[i..][1..] == v[i + 1..];
    }
  }

  lemma {:induction false} PolyConcat(c: bv32, a: seq<Byte>, b: seq<Byte>)
    ensures Poly(c, a + b) == Poly(Poly(c, a), b)
    decreases |a|
  {
    hide Step;
    if a == [] {
      assert a + b == b;
    } else {
      assert (a + b)[0] == a[0] && (a + b)[1..] == a[1..] + b;
      PolyConcat(Step(c, Wide(a[0])), a[1..], b);
    }
  }

  lemma {:induction false} PolyRange(c: bv32, v: seq<Byte>)
    requires c < MODULUS_BITS
    ensures Poly(c, v) < MODULUS_BITS
    decreases |v|
  {
    hide Step;
    if v != [] {
      StepRange(c, Wide(v[0]));
      PolyRange(Step(c, Wide(v[0])), v[1..]);
    }
  }

  lemma StepRange(c: bv32, v: bv32)
    requires v < 256
    ensures Step(c, v) < MODULUS_BITS
  {
  }

  // ---------- linearity ----------

  lemma FoldIsLinear(a: bv32, b: bv32)
    ensures Fold(Plus(a, b)) == Plus(Fold(a), Fold(b))
  {
    hide Plus, Term;
    TermIsLinear(a, b, 1, 0x3b6a57b2);
    TermIsLinear(a, b, 2, 0x26508e6d);
    TermIsLinear(a, b, 4, 0x1ea119fa);
    TermIsLinear(a, b, 8, 0x3d4233dd);
    TermIsLinear(a, b, 16, 0x2a1462b3);
    var a1, b1 := Term(a, 1, 0x3b6a57b2), Term(b, 1, 0x3b6a57b2);
    var a2, b2 := Term(a, 2, 0x26508e6d), Term(b, 2, 0x26508e6d);
    var a3, b3 := Term(a, 4, 0x1ea119fa), Term(b, 4, 0x1ea119fa);
    var a4, b4 := Term(a, 8, 0x3d4233dd), Term(b, 8, 0x3d4233dd);
    var a5, b5 := Term(a, 16, 0x2a1462b3), Term(b, 16, 0x2a1462b3);
    PlusSwap(a1, b1, a2, b2);
    PlusSwap(Plus(a1, a2), Plus(b1, b2), a3, b3);
    PlusSwap(Plus(Plus(a1, a2), a3), Plus(Plus(b1, b2), b3), a4, b4);
    PlusSwap(Plus(Plus(Plus(a1, a2), a3), a4), Plus(Plus(Plus(b1, b2), b3), b4), a5, b5);
  }

  predicate IsBit(bit: bv32) {
    bit == 1 || bit == 2 || bit == 4 || bit == 8 || bit == 16
  }

  lemma BitOfPlus(a: bv32, b: bv32, bit: bv32)
    requires IsBit(bit)
    ensures Plus(a, b) & bit != 0 <==> (a & bit != 0) != (b & bit != 0)
  {
  }

  lemma TermIsLinear(a: bv32, b: bv32, bit: bv32, k: bv32)
    requires IsBit(bit)
    ensures Term(Plus(a, b), bit, k) == Plus(Term(a, bit, k), Term(b, bit, k))
  {
    hide Plus;
    BitOfPlus(a, b, bit);
    PlusZero(k);
    PlusZero(0);
  }

  lemma UpIsLinear(c: bv32, d: bv32)
    ensures Up(Plus(c, d)) == Plus(Up(c), Up(d)) && Top(Plus(c, d)) == Plus(Top(c), Top(d))
  {
  }

  lemma Regroup(a: bv32, b: bv32, c: bv32, d: bv32, e: bv32, f: bv32)
    ensures Plus(Plus(Plus(a, b), Plus(c, d)), Plus(e, f)) == Plus(Plus(Plus(a, c), e), Plus(Plus(b, d), f))
  {
    hide Plus;
    PlusSwap(a, b, c, d);
    PlusSwap(Plus(a, c), Plus(b, d), e, f);
  }

  lemma StepIsLinear(c: bv32, v: bv32, d: bv32, w: bv32)
    ensures Step(Plus(c, d), Plus(v, w)) == Plus(Step(c, v), Step(d, w))
  {
    hide Fold, Up, Top, Plus;
    UpIsLinear(c, d);
    FoldIsLinear(Top(c), Top(d));
    Regroup(Up(c), Up(d), v, w, Fold(Top(c)), Fold(Top(d)));
  }

  function PlusByte(a: Byte, b: Byte): Byte {
    a ^ b
  }

  function Xor(a: seq<Byte>, b: seq<Byte>): (r: seq<Byte>)
    requires |a| == |b|
    ensures |r| == |a|
  {
    seq(|a|, i requires 0 <= i < |a| => PlusByte(a[i], b[i]))
  }

  lemma WideXor(a: Byte, b: Byte)
    ensures Wide(PlusByte(a, b)) == Plus(Wide(a), Wide(b))
  {
  }

  /** The remainder of a sum is the sum of the remainders. */
  lemma {:induction false} PolyIsLinear(c: bv32, a: seq<Byte>, d: bv32, b: seq<Byte>)
    requires |a| == |b|
    ensures Poly(Plus(c, d), Xor(a, b)) == Plus(Poly(c, a), Poly(d, b))
    decreases |a|
  {
    hide Step, Plus, PlusByte, Wide;
    if a != [] {
      WideXor(a[0], b[0]);
      StepIsLinear(c, Wide(a[0]), d, Wide(b[0]));
      PolyIsLinear(Step(c, Wide(a[0])), a[1..], Step(d, Wide(b[0])), b[1..]);
      assert Xor(a, b)[1..] == Xor(a[1..], b[1..]);
    }
  }

  // ---------- errors do not vanish ----------

  lemma FoldLow(c0: bv32)
    requires c0 < 32 && Fold(c0) & 31 == 0
    ensures c0 == 0
  {
  }

  lemma StepKeepsNonzero(c: bv32)
    requires c < MODULUS_BITS && Step(c, 0) == 0
    ensures c == 0
  {
    FoldLow(Top(c));
  }

  /** A difference that is followed by equal symbols stays a difference. */
  lemma {:induction false} PolyKeepsDifference(c: bv32, d: bv32, v: seq<Byte>)
    requires c < MODULUS_BITS && d < MODULUS_BITS && Poly(c, v) == Poly(d, v)
    ensures c == d
    decreases |v|
  {
    hide Step, Plus;
    if v != [] {
      var x := Wide(v[0]);
      StepRange(c, x);
      StepRange(d, x);
      PolyKeepsDifference(Step(c, x), Step(d, x), v[1..]);
      StepIsLinear(c, x, d, x);
      PlusZero(x);
      PlusZero(Step(c, x));
      XorRange(c, d);
      StepKeepsNonzero(Plus(c, d));
      SameByXor(c, d);
    }
  }

  lemma XorRange(c: bv32, d: bv32)
    requires c < MODULUS_BITS && d < MODULUS_BITS
    ensures Plus(c, d) < MODULUS_BITS
  {
  }

  lemma SameByXor(c: bv32, d: bv32)
    ensures Plus(c, d) == 0 ==> c == d
  {
  }

  // ---------- six symbols ----------

  ghost predicate FiveBit(v: seq<Byte>) {
    forall i :: 0 <= i < |v| ==> v[i] < 32
  }

  /** The remainders below 2 to the power of 5k. */
  function Room(k: nat): bv32
    requires k <= 6
  {
    if k == 0 then 1 else if k == 1 then 0x20 else if k == 2 then 0x400 else if k == 3 then 0x8000
    else if k == 4 then 0x100000 else if k == 5 then 0x2000000 else 0x40000000
  }

  /** As long as nothing is shifted out, symbols are only lined up. */
  lemma StepLinesUp(c: bv32, k: nat, v: bv32)
    requires k < 6 && c < Room(k) && v < 32
    ensures Step(c, v) < Room(k + 1) && (Step(c, v) == 0 ==> c == 0 && v == 0)
  {
  }

  lemma {:induction false} SixSymbols(c: bv32, k: nat, v: seq<Byte>)
    requires k + |v| <= 6 && c < Room(k) && FiveBit(v) && Poly(c, v) == 0
    ensures c == 0 && forall i :: 0 <= i < |v| ==> v[i] == 0
    decreases |v|
  {
    hide Step;
    if v != [] {
      NarrowWide(v[0]);
      StepLinesUp(c, k, Wide(v[0]));
      SixSymbols(Step(c, Wide(v[0])), k + 1, v[1..]);
      forall i | 0 <= i < |v|
        ensures v[i] == 0
      {
        if i > 0 {
          assert v[1..][i - 1] == 0;
        }
      }
    }
  }

  lemma NarrowWide(b: Byte)
    ensures (b < 32 ==> Wide(b) < 32) && (Wide(b) == 0 ==> b == 0)
  {
  }

  /** No two texts that differ only within six neighbouring symbols have the same remainder. */
  lemma BurstsShow(c: bv32, u: seq<Byte>, w: seq<Byte>, rest: seq<Byte>)
    requires c < MODULUS_BITS && |u| == |w| <= 6 && FiveBit(u) && FiveBit(w)
    requires Poly(c, u + rest) == Poly(c, w + rest)
    ensures u == w
  {
    hide Poly, Plus, PlusByte;
    PolyConcat(c, u, rest);
    PolyConcat(c, w, rest);
    PolyRange(c, u);
    PolyRange(c, w);
    PolyKeepsDifference(Poly(c, u), Poly(c, w), rest);
    PolyIsLinear(c, u, c, w);
    PlusZero(c);
    PlusZero(Poly(c, u));
    forall i | 0 <= i < |u|
      ensures Xor(u, w)[i] < 32
    {
      PlusBytes(u[i], w[i]);
    }
    SixSymbols(0, 0, Xor(u, w));
    forall i | 0 <= i < |u|
      ensures u[i] == w[i]
    {
      assert Xor(u, w)[i] == 0;
      PlusBytes(u[i], w[i]);
    }
  }

  lemma PlusBytes(a: Byte, b: Byte)
    ensures a < 32 && b < 32 ==> PlusByte(a, b) < 32
    ensures PlusByte(a, b) == 0 ==> a == b
  {
  }

  // ---------- the checksum ----------

  function Down(x: bv32): bv32 {
    x >> 5
  }

  /** The value of the first `i` of the six 5-bit groups, the highest first. */
  function Lead(m: bv32, i: nat): bv32
    requires i <= 6
    decreases 6 - i
  {
    if i == 6 then m else Down(Lead(m, i + 1))
  }

  function Group(m: bv32, i: nat): Byte
    requires i < 6
  {
    (Lead(m, i + 1) & 31) as Byte
  }

  function Groups(m: bv32): seq<Byte> {
    [Group(m, 0), Group(m, 1), Group(m, 2), Group(m, 3), Group(m, 4), Group(m, 5)]
  }

  lemma GroupRange(m: bv32, i: nat)
    requires i < 6
    ensures Group(m, i) < 32
  {
    hide Lead;
  }

  lemma StepWithRoom(c: bv32, v: bv32)
    requires c < 0x2000000
    ensures Step(c, v) == (c << 5) ^ v
  {
  }

  lemma {:induction false} LeadRange(m: bv32, i: nat)
    requires m < MODULUS_BITS && i <= 6
    ensures Lead(m, i) < Room(i)
    decreases 6 - i
  {
    hide Lead, Down, Room;
    FullRoom();
    LeadEnd(m);
    if i < 6 {
      LeadStep(m, i);
      LeadRange(m, i + 1);
      LessRoom(Lead(m, i + 1), i);
    }
  }

  lemma LessRoom(x: bv32, k: nat)
    requires k < 6 && x < Room(k + 1)
    ensures Down(x) < Room(k)
  {
  }

  lemma LeadStep(m: bv32, i: nat)
    requires i < 6
    ensures Lead(m, i) == Down(Lead(m, i + 1))
  {
    hide Down;
  }

  lemma FullRoom()
    ensures Room(6) == MODULUS_BITS
  {
  }

  lemma SmallRoom(k: nat)
    requires k < 6
    ensures Room(k) <= 0x2000000
  {
  }

  /** The shift by a multiple of five. */
  function Shifted(m: bv32, k: nat): bv32
    requires k < 6
  {
    if k == 0 then m else if k == 1 then m >> 5 else if k == 2 then m >> 10 else if k == 3 then m >> 15
    else if k == 4 then m >> 20 else m >> 25
  }

  lemma DownShifts(m: bv32)
    ensures Down(m) == m >> 5 && Down(m >> 5) == m >> 10 && Down(m >> 10) == m >> 15
    ensures Down(m >> 15) == m >> 20 && Down(m >> 20) == m >> 25
  {
  }

  lemma ShiftFive(m: bv32, k: nat)
    requires k < 5
    ensures Down(Shifted(m, k)) == Shifted(m, k + 1)
  {
    hide Down;
    DownShifts(m);
  }

  lemma ShiftedZero(m: bv32)
    ensures Shifted(m, 0) == m
  {
  }

  lemma {:induction false} LeadByShift(m: bv32, i: nat)
    requires i < 6
    ensures Lead(m, i + 1) == Shifted(m, 5 - i)
    decreases 6 - i
  {
    hide Down, Shifted;
    ShiftedZero(m);
    if i < 5 {
      LeadByShift(m, i + 1);
      ShiftFive(m, 4 - i);
    }
  }

  lemma NextGroup(m: bv32, i: nat)
    requires m < MODULUS_BITS && i < 6
    ensures (Lead(m, i) << 5) ^ Wide(Group(m, i)) == Lead(m, i + 1)
  {
    SplitLow(Lead(m, i + 1));
  }

  lemma SplitLow(x: bv32)
    ensures (Down(x) << 5) ^ (x & 31) == x
  {
  }

  lemma LeadEnd(m: bv32)
    ensures Lead(m, 6) == m
  {
  }

  lemma StepGroup(m: bv32, i: nat)
    requires m < MODULUS_BITS && i < 6
    ensures Step(Lead(m, i), Wide(Group(m, i))) == Lead(m, i + 1)
  {
    hide Step, Lead, Wide, Group, Room;
    LeadRange(m, i);
    SmallRoom(i);
    StepWithRoom(Lead(m, i), Wide(Group(m, i)));
    NextGroup(m, i);
  }

  lemma {:induction false} PolyOfGroupsFrom(m: bv32, i: nat)
    requires m < MODULUS_BITS && i <= 6
    ensures Poly(Lead(m, i), Groups(m)[i..]) == m
    decreases 6 - i
  {
    hide Step, Wide, Group, Lead;
    LeadEnd(m);
    if i < 6 {
      StepGroup(m, i);
      PolyOfGroupsFrom(m, i + 1);
      assert Groups(m)[i..][1..] == Groups(m)[i + 1..];
      assert Groups(m)[i] == Group(m, i);
    }
  }

  /** Six groups read back as symbols give the packed value. */
  lemma PolyOfGroups(m: bv32)
    requires m < MODULUS_BITS
    ensures Poly(0, Groups(m)) == m
  {
    hide Group, Lead;
    PolyOfGroupsFrom(m, 0);
    LeadRange(m, 0);
    assert Groups(m)[0..] == Groups(m);
  }

  const ZEROES: seq<Byte> := [0, 0, 0, 0, 0, 0]

  /** The six symbols that make the remainder 1. */
  function Checksum(c: bv32): seq<Byte> {
    Groups(Plus(Poly(c, ZEROES), 1))
  }

  /** They do so, and no other six symbols do. */
  lemma ChecksumIsUnique(c: bv32, r: seq<Byte>)
    requires c < MODULUS_BITS && |r| == 6 && FiveBit(r)
    ensures Poly(c, r) == 1 <==> r == Checksum(c)
  {
    hide Poly, Plus, PlusByte, Group;
    var m := Plus(Poly(c, ZEROES), 1);
    var sum := Checksum(c);
    PolyRange(c, ZEROES);
    XorRange(Poly(c, ZEROES), 1);
    PolyOfGroups(m);
    PolyIsLinear(c, ZEROES, 0, sum);
    PlusZero(c);
    forall i | 0 <= i < 6
      ensures Xor(ZEROES, sum)[i] == sum[i] && sum[i] < 32
    {
      PlusByteZero(sum[i]);
      GroupRange(m, i);
    }
    assert Xor(ZEROES, sum) == sum;
    Cancel(Poly(c, ZEROES), 1);
    if Poly(c, r) == 1 {
      assert r + [] == r && sum + [] == sum;
      BurstsShow(c, r, sum, []);
    }
  }

  lemma PlusByteZero(a: Byte)
    ensures PlusByte(0, a) == a
  {
  }

  lemma Cancel(a: bv32, b: bv32)
    ensures Plus(a, Plus(a, b)) == b
  {
    hide Plus;
    PlusAssoc(a, a, b);
    PlusZero(a);
    PlusZero(b);
  }
}
