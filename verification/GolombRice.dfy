/** Golomb-Rice codes of natural numbers in a stream of bits, and the scaling of hashes into a range. */
module GolombRice {
  import opened Wrappers
  import opened Radix
  import opened Limbs

  /** A decoded number and the position in the stream after it. */
  datatype Read = Read(number: nat, next: nat)

  const WORD := 64

  // ---------- fixed-width numbers ----------

  /** The lowest `k` bits of a number, the highest first. */
  function LowBits(x: nat, k: nat): (r: seq<bool>)
    ensures |r| == k
  {
    if k == 0 then [] else LowBits(x / 2, k - 1) + [x % 2 == 1]
  }

  function Number(bits: seq<bool>): nat {
    if bits == [] then 0 else 2 * Number(bits[..|bits| - 1]) + (if bits[|bits| - 1] then 1 else 0)
  }

  lemma {:induction false} NumberOfLowBits(x: nat, k: nat)
    ensures Number(LowBits(x, k)) == x % Pow2(k)
  {
    hide Pow2;
    if k == 0 {
      Pow2Next(0);
    } else {
      NumberOfLowBits(x / 2, k - 1);
      var bits := LowBits(x, k);
      assert bits[..k - 1] == LowBits(x / 2, k - 1);
      Pow2Next(k - 1);
      HalfRemainder(x, Pow2(k - 1));
    }
  }

  lemma HalfRemainder(x: nat, p: nat)
    requires p > 0
    ensures x % (2 * p) == 2 * (x / 2 % p) + x % 2
  {
    var h := x / 2;
    DivMod(h, p);
    var q, r := h / p, h % p;
    assert x == q * (2 * p) + (2 * r + x % 2) by {
      assert 2 * (q * p) == q * (2 * p);
    }
    DivideBack(q, 2 * r + x % 2, 2 * p);
  }

  // ---------- the code ----------

  function Ones(k: nat): seq<bool> {
    seq(k, _ => true)
  }

  /** The quotient in unary, a zero, and the remainder in `p` bits. */
  function Encode(p: nat, x: nat): seq<bool> {
    Ones(x / Pow2(p)) + [false] + LowBits(x, p)
  }

  /** The number of ones from a position on; nothing if no zero follows. */
  function Unary(bits: seq<bool>, at: nat): Option<nat>
    decreases |bits| - at
  {
    if at >= |bits| then None
    else if !bits[at] then Some(0)
    else match Unary(bits, at + 1)
      case None => None
      case Some(q) => Some(q + 1)
  }

  function Decode(p: nat, bits: seq<bool>, at: nat): Option<Read> {
    match Unary(bits, at)
    case None => None
    case Some(q) =>
      var from := at + q + 1;
      if from + p > |bits| then None
      else Some(Read(q * Pow2(p) + Number(bits[from..from + p]), from + p))
  }

  /** `part` stands in the stream at a position. */
  ghost predicate Holds(bits: seq<bool>, at: nat, part: seq<bool>) {
    at + |part| <= |bits| && bits[at..at + |part|] == part
  }

  lemma HoldsBoth(bits: seq<bool>, at: nat, a: seq<bool>, b: seq<bool>)
    requires Holds(bits, at, a + b)
    ensures Holds(bits, at, a) && Holds(bits, at + |a|, b)
  {
    var all := bits[at..at + |a + b|];
    assert a == all[..|a|] && b == all[|a|..];
    assert bits[at..at + |a|] == all[..|a|];
    assert bits[at + |a|..at + |a| + |b|] == all[|a|..];
  }

  lemma {:induction false} UnaryOfOnes(bits: seq<bool>, at: nat, q: nat)
    requires Holds(bits, at, Ones(q) + [false])
    ensures Unary(bits, at) == Some(q)
    decreases q
  {
    var part := Ones(q) + [false];
    assert bits[at] == bits[at..at + |part|][0] == part[0];
    if q > 0 {
      assert Ones(q - 1) + [false] == part[1..];
      assert bits[at + 1..at + 1 + q] == bits[at..at + |part|][1..];
      UnaryOfOnes(bits, at + 1, q - 1);
    }
  }

  /** Decoding inverts encoding, anywhere in a stream. */
  lemma DecodeInvertsEncode(p: nat, bits: seq<bool>, at: nat, x: nat)
    requires Holds(bits, at, Encode(p, x))
    ensures Decode(p, bits, at) == Some(Read(x, at + |Encode(p, x)|))
  {
    hide Pow2, Unary;
    var q := x / Pow2(p);
    HoldsBoth(bits, at, Ones(q) + [false], LowBits(x, p));
    UnaryOfOnes(bits, at, q);
    NumberOfLowBits(x, p);
    DivMod(x, Pow2(p));
  }

  lemma {:induction false} NumberBound(bits: seq<bool>)
    ensures Number(bits) < Pow2(|bits|)
  {
    hide Pow2;
    Pow2Next(0);
    if bits != [] {
      NumberBound(bits[..|bits| - 1]);
      Pow2Next(|bits| - 1);
    }
  }

  lemma UnaryFits(bits: seq<bool>, at: nat)
    ensures Unary(bits, at).Some? ==> at + Unary(bits, at).value < |bits|
    decreases |bits| - at
  {
  }

  /** A number that is read is smaller than 2^p times the bits it takes. */
  lemma NumberFits(p: nat, bits: seq<bool>, at: nat)
    requires Decode(p, bits, at).Some?
    ensures var r := Decode(p, bits, at).value; at < r.next <= |bits| && r.number < Mul(r.next - at, Pow2(p))
  {
    hide Pow2, Unary, Number;
    UnaryFits(bits, at);
    var q := Unary(bits, at).value;
    var from := at + q + 1;
    var r := Decode(p, bits, at).value;
    NumberBound(bits[from..from + p]);
    MulLe(q + 1, r.next - at, Pow2(p));
    assert (q + 1) * Pow2(p) == q * Pow2(p) + Pow2(p);
  }

  // ---------- writing and reading ----------

  method GolombRiceEncode(p: nat, x: nat) returns (bits: seq<bool>)
    requires p < WORD
    ensures bits == Encode(p, x)
  {
    hide Pow2;
    var q := x / Pow2(p);
    DivMod(x, Pow2(p));
    assert q >= 0;
    ghost var all := q;
    bits := [];
    while q > 0
      invariant 0 <= q <= all && bits == Ones(all - q)
    {
      var nbits := if q <= WORD then q else WORD;
      bits := bits + Ones(nbits);
      q := q - nbits;
    }
    bits := bits + [false];
    bits := bits + LowBits(x, p);
  }

  method GolombRiceDecode(p: nat, bits: seq<bool>, at: nat) returns (r: Option<Read>)
    requires p < WORD
    ensures r == Decode(p, bits, at)
  {
    hide Pow2, Number;
    var q: nat, i := 0, at;
    while i < |bits| && bits[i]
      invariant at <= i && q == i - at
      invariant match Unary(bits, i) case None => Unary(bits, at) == None case Some(k) => Unary(bits, at) == Some(q + k)
      decreases |bits| - i
    {
      q := q + 1;
      i := i + 1;
    }
    if i >= |bits| {
      return None;
    }
    i := i + 1;
    if i + p > |bits| {
      return None;
    }
    return Some(Read(q * Pow2(p) + Number(bits[i..i + p]), i + p));
  }

  // ---------- scaling ----------

  /** The upper half of the product of two 64-bit numbers, from 32-bit pieces. */
  method MapIntoRange(x: nat, n: nat) returns (r: nat)
    requires x < BASE * BASE && n < BASE * BASE
    ensures r == x * n / (BASE * BASE) && (n > 0 ==> r < n)
  {
    hide Mul;
    var xHi, xLo, nHi, nLo := x / BASE, x % BASE, n / BASE, n % BASE;
    PieceFits(xHi, nHi);
    PieceFits(xHi, nLo);
    PieceFits(xLo, nHi);
    PieceFits(xLo, nLo);
    var ac, ad, bc, bd := Mul(xHi, nHi), Mul(xHi, nLo), Mul(xLo, nHi), Mul(xLo, nLo);
    assert ac < BASE * BASE && ad < BASE * BASE && bc < BASE * BASE && bd < BASE * BASE;
    var mid := bd / BASE + bc % BASE + ad % BASE;
    var upper := ac + bc / BASE + ad / BASE + mid / BASE;
    Pieces(xHi, xLo, nHi, nLo);
    MulIs(x, n);
    UpperHalf(x, n, upper, mid % BASE * BASE + bd % BASE);
    assert mid < BASE * BASE && upper < BASE * BASE;
    return upper;
  }

  lemma PieceFits(a: nat, b: nat)
    requires a < BASE && b < BASE
    ensures Mul(a, b) < BASE * BASE
  {
    MulLe(a, BASE - 1, b);
    MulLe(b, BASE - 1, BASE - 1);
  }

  lemma Pieces(xHi: nat, xLo: nat, nHi: nat, nLo: nat)
    ensures Mul(xHi * BASE + xLo, nHi * BASE + nLo) ==
              Mul(xHi, nHi) * (BASE * BASE) + (Mul(xHi, nLo) + Mul(xLo, nHi)) * BASE + Mul(xLo, nLo)
  {
    assert (xHi * BASE) * (nHi * BASE) == (xHi * nHi) * (BASE * BASE);
    assert (xHi * BASE) * nLo == (xHi * nLo) * BASE;
    assert xLo * (nHi * BASE) == (xLo * nHi) * BASE;
  }

  lemma UpperHalf(x: nat, n: nat, upper: nat, low: nat)
    requires x < BASE * BASE && n < BASE * BASE && Mul(x, n) == upper * (BASE * BASE) + low && low < BASE * BASE
    ensures upper == x * n / (BASE * BASE) && upper < BASE * BASE && (n > 0 ==> upper < n)
  {
    DivideBack(upper, low, BASE * BASE);
    MulLe(x + 1, BASE * BASE, n);
    assert (x + 1) * n == x * n + n && (BASE * BASE) * n == n * (BASE * BASE);
  }
}
