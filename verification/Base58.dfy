/** Base 58: byte strings as text, with a leading 1 for each leading zero byte. */
module Base58 {
  import opened Wrappers
  import opened Radix
  import opened Base58Bounds

  type Byte = x: nat | x < 256

  const ONE: Byte := 49

  // ---------- characters ----------

  /** The character of a digit, from "123456789ABCDEFGHJKLMNPQRSTUVWXYZabcdefghijkmnopqrstuvwxyz". */
  function Letter(d: nat): Byte
    requires d < 58
  {
    if d < 9 then 49 + d else if d < 17 then 65 + (d - 9) else if d < 22 then 74 + (d - 17)
    else if d < 33 then 80 + (d - 22) else if d < 44 then 97 + (d - 33) else 109 + (d - 44)
  }

  /** The digit of a character, or -1. */
  function Digit(c: Byte): int {
    if 49 <= c <= 57 then c - 49 else if 65 <= c <= 72 then c - 65 + 9 else if 74 <= c <= 78 then c - 74 + 17
    else if 80 <= c <= 90 then c - 80 + 22 else if 97 <= c <= 107 then c - 97 + 33
    else if 109 <= c <= 122 then c - 109 + 44
    else -1
  }

  predicate IsSpace(c: Byte) {
    c == 32 || 9 <= c <= 13
  }

  predicate IsLetter(c: Byte) {
    Digit(c) != -1
  }

  lemma LetterDigit(d: nat)
    requires d < 58
    ensures Digit(Letter(d)) == d && !IsSpace(Letter(d)) && Letter(d) != 0 && (Letter(d) == ONE <==> d == 0)
  {
  }

  lemma DigitLetter(c: Byte)
    requires IsLetter(c)
    ensures 0 <= Digit(c) < 58 && Letter(Digit(c)) == c && !IsSpace(c) && c != 0
  {
  }

  // ---------- the functions ----------

  function Letters(s: seq<nat>): seq<Byte>
    requires Below(s, 58)
  {
    seq(|s|, i requires 0 <= i < |s| => Letter(s[i]))
  }

  ghost predicate AllLetters(s: seq<Byte>) {
    forall i :: 0 <= i < |s| ==> IsLetter(s[i])
  }

  function DigitsOf(s: seq<Byte>): (r: seq<nat>)
    requires AllLetters(s)
    ensures Below(r, 58)
  {
    assert forall i :: 0 <= i < |s| ==> IsLetter(s[i]) ==> 0 <= Digit(s[i]) < 58;
    seq<nat>(|s|, i requires 0 <= i < |s| => Digit(s[i]) as nat)
  }

  /** How many times `x` stands at the front. */
  function Leading(s: seq<nat>, x: nat): (k: nat)
    ensures k <= |s| && (forall i :: 0 <= i < k ==> s[i] == x) && (k < |s| ==> s[k] != x)
  {
    if s != [] && s[0] == x then 1 + Leading(s[1..], x) else 0
  }

  function Copies(x: Byte, k: nat): seq<Byte> {
    seq(k, _ => x)
  }

  function Bytes(s: seq<nat>): seq<Byte>
    requires Below(s, 256)
  {
    seq(|s|, i requires 0 <= i < |s| => s[i] as Byte)
  }

  function Encode(b: seq<Byte>): seq<Byte> {
    Copies(ONE, Leading(b, 0)) + Letters(Digits(Value(b, 256), 58))
  }

  function Spaces(s: seq<Byte>): (k: nat)
    ensures k <= |s| && (forall i :: 0 <= i < k ==> IsSpace(s[i])) && (k < |s| ==> !IsSpace(s[k]))
  {
    if s != [] && IsSpace(s[0]) then 1 + Spaces(s[1..]) else 0
  }

  function WordLength(s: seq<Byte>): (k: nat)
    ensures k <= |s| && (forall i :: 0 <= i < k ==> !IsSpace(s[i])) && (k < |s| ==> IsSpace(s[k]))
  {
    if s != [] && !IsSpace(s[0]) then 1 + WordLength(s[1..]) else 0
  }

  /** The first word of a text. */
  function Word(s: seq<Byte>): seq<Byte> {
    var t := s[Spaces(s)..];
    t[..WordLength(t)]
  }

  /** What stands behind the first word. */
  function Rest(s: seq<Byte>): seq<Byte> {
    var t := s[Spaces(s)..];
    t[WordLength(t)..]
  }

  /** The number that a word of letters stands for, with a zero byte for each leading 1. */
  function WordBytes(w: seq<Byte>): seq<Byte>
    requires AllLetters(w)
  {
    Copies(0, Leading(w, ONE)) + Bytes(Digits(Value(DigitsOf(w), 58), 256))
  }

  /** A text that is a single word of letters between spaces can be decoded. */
  ghost function Decode(s: seq<Byte>): Option<seq<Byte>> {
    if AllLetters(Word(s)) && Spaces(Rest(s)) == |Rest(s)| then Some(WordBytes(Word(s))) else None
  }

  // ---------- round trips ----------

  lemma LeadingOf(z: seq<nat>, t: seq<nat>, x: nat)
    requires (forall i :: 0 <= i < |z| ==> z[i] == x) && (t != [] ==> t[0] != x)
    ensures Leading(z + t, x) == |z|
  {
    var s := z + t;
    assert forall i :: 0 <= i < |z| ==> s[i] == x;
    assert |z| < |s| ==> s[|z|] == t[0];
  }

  lemma LettersInverse(s: seq<nat>)
    requires Below(s, 58)
    ensures AllLetters(Letters(s)) && DigitsOf(Letters(s)) == s
    ensures forall i :: 0 <= i < |s| ==> !IsSpace(Letters(s)[i])
    ensures s != [] && s[0] > 0 ==> Letters(s)[0] != ONE
  {
    forall i | 0 <= i < |s|
      ensures Digit(Letters(s)[i]) == s[i] && !IsSpace(Letters(s)[i])
    {
      LetterDigit(s[i]);
    }
  }

  /** A text of non-spaces is its own word. */
  lemma WordOfWord(w: seq<Byte>)
    requires forall i :: 0 <= i < |w| ==> !IsSpace(w[i])
    ensures Word(w) == w && Rest(w) == []
  {
    assert Spaces(w) == 0;
    assert w[0..] == w;
    assert WordLength(w) == |w|;
  }

  lemma DropLeading(b: seq<nat>, base: nat)
    requires base >= 2 && Below(b, base)
    ensures Digits(Value(b, base), base) == b[Leading(b, 0)..]
  {
    var k := Leading(b, 0);
    var rest := b[k..];
    assert b == b[..k] + rest;
    ValueSkipsZeroes(b[..k], rest, base);
    DigitsOfValue(rest, base);
  }

  /** Leading ones and letters of digits without leading zero are read back as such. */
  lemma SpelledWord(z: nat, d: seq<nat>)
    requires Below(d, 58) && (d != [] ==> d[0] > 0)
    ensures var w := Copies(ONE, z) + Letters(d);
            && AllLetters(w) && Word(w) == w && Rest(w) == [] && Leading(w, ONE) == z
            && Value(DigitsOf(w), 58) == Value(d, 58)
  {
    hide Word, Rest, Value, Digit, Letter, IsSpace, Leading;
    var w := Copies(ONE, z) + Letters(d);
    LettersInverse(d);
    OneIsLetter();
    WordOfWord(w);
    LeadingOf(Copies(ONE, z), Letters(d), ONE);
    var zeroes := seq(z, _ => 0);
    assert DigitsOf(w) == zeroes + d;
    ValueSkipsZeroes(zeroes, d, 58);
  }

  lemma OneIsLetter()
    ensures IsLetter(ONE) && Digit(ONE) == 0 && !IsSpace(ONE)
  {
  }

  /** Decoding gives back every byte string that was encoded. */
  lemma RoundTrip(b: seq<Byte>)
    ensures Decode(Encode(b)) == Some(b)
  {
    hide Word, Rest, Value, Digits, Letters, DigitsOf, AllLetters;
    var z, v := Leading(b, 0), Value(b, 256);
    SpelledWord(z, Digits(v, 58));
    ValueOfDigits(v, 58);
    DropLeading(b, 256);
    assert Bytes(b[z..]) == b[z..];
    assert b == Copies(0, z) + b[z..];
  }

  /** Encoding what was decoded gives back the word of the text; spaces around it are lost. */
  lemma EncodeInvertsDecode(s: seq<Byte>)
    requires Decode(s).Some?
    ensures Encode(Decode(s).value) == Word(s)
  {
    hide Word, Rest, Value, Digits;
    var w := Word(s);
    var z := Leading(w, ONE);
    var d := DigitsOf(w);
    var v := Value(d, 58);
    var b := Decode(s).value;
    LeadingDigits(w);
    DropLeading(d, 58);
    LeadingOf(Copies(0, z), Bytes(Digits(v, 256)), 0);
    ValueSkipsZeroes(Copies(0, z), Bytes(Digits(v, 256)), 256);
    assert Bytes(Digits(v, 256)) == Digits(v, 256);
    ValueOfDigits(v, 256);
    LettersOfDigits(w, z);
  }

  ghost predicate OnlySpacesBehind(s: seq<Byte>) {
    Spaces(Rest(s)) == |Rest(s)|
  }

  /** A text stands for a byte string if and only if its word is the encoding and only spaces stand behind it. */
  lemma DecodeIsWord(s: seq<Byte>, b: seq<Byte>)
    ensures Decode(s) == Some(b) <==> Word(s) == Encode(b) && OnlySpacesBehind(s)
  {
    hide Encode, Spaces, AllLetters, WordBytes;
    if Decode(s).Some? {
      EncodeInvertsDecode(s);
    }
    if Word(s) == Encode(b) {
      RoundTrip(b);
      WordOfWord(Word(s));
    }
  }

  /** A string as text: what stands before the first zero byte. */
  function Text(s: seq<Byte>): seq<Byte> {
    if s == [] || s[0] == 0 then [] else [s[0]] + Text(s[1..])
  }

  lemma {:induction false} TextEnds(s: seq<Byte>, n: nat)
    requires n <= |s| && (forall i :: 0 <= i < n ==> s[i] != 0) && (n < |s| ==> s[n] == 0)
    ensures Text(s) == s[..n]
    decreases |s|
  {
    if n > 0 {
      TextEnds(s[1..], n - 1);
      assert s[..n] == [s[0]] + s[1..][..n - 1];
    }
  }

  /** An encoding has no zero byte, so it is read whole. */
  lemma EncodedIsText(b: seq<Byte>)
    ensures Text(Encode(b)) == Encode(b)
  {
    hide Leading, Digits, Value, Letter;
    var e := Encode(b);
    var d := Digits(Value(b, 256), 58);
    forall i | 0 <= i < |e|
      ensures e[i] != 0
    {
      if i >= Leading(b, 0) {
        LetterDigit(d[i - Leading(b, 0)]);
      }
    }
    TextEnds(e, |e|);
    assert e[..|e|] == e;
  }

  /** Leading ones are leading zero digits. */
  lemma LeadingDigits(w: seq<Byte>)
    requires AllLetters(w)
    ensures Leading(DigitsOf(w), 0) == Leading(w, ONE)
  {
    hide Digit, Letter;
    var k, d := Leading(w, ONE), DigitsOf(w);
    OneIsLetter();
    forall i | 0 <= i < |w|
      ensures d[i] == 0 <==> w[i] == ONE
    {
      DigitLetter(w[i]);
      LetterDigit(d[i]);
    }
    assert d == d[..k] + d[k..];
    LeadingOf(d[..k], d[k..], 0);
  }

  lemma LettersOfDigits(w: seq<Byte>, z: nat)
    requires AllLetters(w) && z <= |w| && forall i :: 0 <= i < z ==> w[i] == ONE
    ensures Copies(ONE, z) + Letters(DigitsOf(w)[z..]) == w
  {
    hide Digit, Letter;
    var t := Letters(DigitsOf(w)[z..]);
    forall i | z <= i < |w|
      ensures t[i - z] == w[i]
    {
      DigitLetter(w[i]);
    }
  }

  // ---------- conversion in place ----------

  lemma CarryAlgebra(d: nat, p: nat, l: nat, carry: nat, to: nat, c: nat, from: nat, s: nat, h: nat, digit: nat)
    requires c + from * s == carry * to + d && l + c * p == from * h + digit
    ensures d * p + l + carry * (to * p) == from * (s * p + h) + digit
  {
    assert carry * (to * p) == (carry * to) * p;
    assert (carry * to) * p + d * p == (c + from * s) * p;
    assert (c + from * s) * p == c * p + from * (s * p);
    assert from * (s * p + h) == from * (s * p) + from * h;
  }

  lemma CarryStep(low: seq<nat>, high: seq<nat>, d: nat, s: nat, c: nat, carry: nat, from: nat, to: nat, digit: nat)
    requires |low| == |high| && c + from * s == carry * to + d
    requires Value(low, to) + c * Pow(to, |low|) == from * Value(high, to) + digit
    ensures Value([d] + low, to) + carry * Pow(to, |low| + 1) == from * Value([s] + high, to) + digit
  {
    hide Value, Pow;
    var p := Pow(to, |low|);
    ValueConcat([d], low, to);
    ValueConcat([s], high, to);
    ValueOfOne(d, to);
    ValueOfOne(s, to);
    PowNext(to, |low|);
    CarryAlgebra(d, p, Value(low, to), carry, to, c, from, s, Value(high, to), digit);
  }

  lemma ValueOfOne(d: nat, base: nat)
    ensures Value([d], base) == d
  {
    assert Value([], base) == 0;
  }

  lemma PowNext(b: nat, k: nat)
    ensures Pow(b, k + 1) == b * Pow(b, k)
  {
  }

  /** The last `i` digits of `s` have been multiplied by `from`, with `digit` added; `carry` is left over. */
  ghost predicate Converting(s: seq<nat>, b: seq<nat>, i: nat, carry: nat, from: nat, to: nat, digit: nat) {
    && |b| == |s| && i <= |s| && b[..|s| - i] == s[..|s| - i] && Below(b, to)
    && Value(b[|s| - i..], to) + carry * Pow(to, i) == from * Value(s[|s| - i..], to) + digit
  }

  lemma ConvertStart(s: seq<nat>, from: nat, to: nat, digit: nat)
    requires Below(s, to)
    ensures Converting(s, s, 0, digit, from, to, digit)
  {
    assert s[|s|..] == [];
  }

  lemma ConvertStep(s: seq<nat>, b: seq<nat>, i: nat, carry: nat, from: nat, to: nat, digit: nat)
    requires to > 0 && i < |s| && Converting(s, b, i, carry, from, to, digit)
    ensures var k := |s| - 1 - i;
            var total := carry + from * b[k];
            0 <= total % to && 0 <= total / to && Converting(s, b[k := total % to], i + 1, total / to, from, to, digit)
  {
    hide Value, Pow;
    var k := |s| - 1 - i;
    var total := carry + from * b[k];
    DivMod(total, to);
    var next := b[k := total % to];
    assert next[k..] == [next[k]] + b[k + 1..] && s[k..] == [s[k]] + s[k + 1..];
    assert b[k] == b[..k + 1][k] == s[k];
    CarryStep(b[k + 1..], s[k + 1..], total % to, s[k], carry, total / to, from, to, digit);
    assert next[..k] == b[..k + 1][..k] && s[..k] == s[..k + 1][..k];
  }

  /** Once the carry is used up, or all digits have been passed, the whole number has been converted. */
  lemma CarryEnd(before: seq<nat>, after: seq<nat>, k: nat, carry: nat, from: nat, to: nat, digit: nat)
    requires |before| == |after| && k <= |before| && after[..k] == before[..k]
    requires Value(after[k..], to) + carry * Pow(to, |before| - k) == from * Value(before[k..], to) + digit
    requires k == 0 || (carry == 0 && Zeroes(before[..k]))
    requires from * Value(before, to) + digit < Pow(to, |before|)
    ensures carry == 0 && Value(after, to) == from * Value(before, to) + digit
  {
    hide Value, Pow;
    assert before == before[..k] + before[k..] && after == after[..k] + after[k..];
    if k == 0 {
      assert before[k..] == before && after[k..] == after;
      MulLe(1, carry, Pow(to, |before|));
    } else {
      ValueSkipsZeroes(before[..k], before[k..], to);
      ValueSkipsZeroes(after[..k], after[k..], to);
    }
  }

  /** Multiplies the number in the buffer by `from` and adds `digit`; `length` digits are in use. */
  method MultiplyAdd(b: array<nat>, length: nat, from: nat, to: nat, digit: nat) returns (used: nat)
    requires to >= 2 && length <= b.Length && Below(b[..], to) && Zeroes(b[..b.Length - length])
    requires from * Value(b[..], to) + digit < Pow(to, b.Length)
    modifies b
    ensures used <= b.Length && Below(b[..], to) && Zeroes(b[..b.Length - used])
    ensures Value(b[..], to) == from * old(Value(b[..], to)) + digit
  {
    hide Value, Pow, Converting;
    var carry: nat, i: nat, n := digit, 0, b.Length;
    ghost var s := b[..];
    ConvertStart(s, from, to, digit);
    while (carry != 0 || i < length) && i < n
      invariant i <= n && Converting(s, b[..], i, carry, from, to, digit)
      decreases n - i
    {
      var k := n - 1 - i;
      ghost var now := b[..];
      ConvertStep(s, now, i, carry, from, to, digit);
      carry := carry + from * b[k];
      b[k] := carry % to;
      carry := carry / to;
      assert b[..] == now[k := b[k]];
      i := i + 1;
    }
    ConvertEnd(s, b[..], i, carry, length, from, to, digit);
    assert carry == 0;
    used := i;
  }

  lemma ConvertEnd(s: seq<nat>, b: seq<nat>, i: nat, carry: nat, length: nat, from: nat, to: nat, digit: nat)
    requires length <= |s| && i <= |s| && Zeroes(s[..|s| - length]) && Converting(s, b, i, carry, from, to, digit)
    requires i == |s| || (carry == 0 && i >= length)
    requires from * Value(s, to) + digit < Pow(to, |s|)
    ensures carry == 0 && Below(b, to) && Zeroes(b[..|s| - i]) && Value(b, to) == from * Value(s, to) + digit
  {
    hide Value, Pow;
    var k := |s| - i;
    if i < |s| {
      forall j | 0 <= j < k
        ensures s[..k][j] == 0
      {
        assert s[..|s| - length][j] == 0;
      }
    }
    CarryEnd(s, b, k, carry, from, to, digit);
  }

  /** The next digit of the input fits into the buffer too. */
  lemma NextFits(input: seq<nat>, k: nat, from: nat, to: nat, size: nat)
    requires from > 0 && Below(input, from) && k < |input| && Pow(from, |input|) <= Pow(to, size)
    ensures from * Value(input[..k], from) + input[k] == Value(input[..k + 1], from) < Pow(to, size)
  {
    hide Pow;
    assert input[..k + 1][..k] == input[..k];
    ValueBound(input[..k + 1], from);
    PowGrows(from, k + 1, |input|);
  }

  lemma EmptyBuffer(s: seq<nat>, base: nat, input: seq<nat>, from: nat)
    requires Zeroes(s) && base > 0
    ensures Below(s, base) && Value(s, base) == Value(input[..0], from) == 0
  {
    ValueOfZeroes(s, base);
  }

  /** Passes over leading zeroes of the buffer, the first `start` of which are known. */
  method SkipZeroes(b: array<nat>, start: nat, base: nat) returns (it: nat)
    requires base >= 2 && start <= b.Length && Below(b[..], base) && Zeroes(b[..start])
    ensures it <= b.Length && b[it..] == Digits(Value(b[..], base), base)
  {
    hide Value;
    it := start;
    while it < b.Length && b[it] == 0
      invariant it <= b.Length && Zeroes(b[..it])
    {
      it := it + 1;
    }
    ghost var s := b[..];
    assert s == s[..it] + s[it..];
    ValueSkipsZeroes(s[..it], s[it..], base);
    DigitsOfValue(s[it..], base);
  }

  method EncodeBase58(b: seq<Byte>) returns (text: seq<Byte>)
    ensures text == Encode(b)
  {
    hide Value, Pow, Digits, Leading, Copies, Letters;
    var zeroes := 0;
    while zeroes < |b| && b[zeroes] == 0
      invariant zeroes <= |b| && forall i :: 0 <= i < zeroes ==> b[i] == 0
    {
      zeroes := zeroes + 1;
    }
    var rest := b[zeroes..];
    assert b == b[..zeroes] + rest;
    LeadingOf(b[..zeroes], rest, 0);
    ValueSkipsZeroes(b[..zeroes], rest, 256);
    var size := |rest| * 138 / 100 + 1;
    EncodeFits(|rest|);
    var b58 := new nat[size](_ => 0);
    EmptyBuffer(b58[..], 58, rest, 256);
    var length: nat := 0;
    for k := 0 to |rest|
      invariant length <= size && Below(b58[..], 58) && Zeroes(b58[..size - length])
      invariant Value(b58[..], 58) == Value(rest[..k], 256)
    {
      NextFits(rest, k, 256, 58, size);
      length := MultiplyAdd(b58, length, 256, 58, rest[k]);
    }
    assert rest[..|rest|] == rest;
    var it := SkipZeroes(b58, size - length, 58);
    text := Copies(ONE, zeroes) + Letters(b58[it..]);
  }

  /** A string is read as text, up to the first zero byte. */
  method DecodeBase58(s: seq<Byte>) returns (r: Option<seq<Byte>>)
    ensures r == Decode(Text(s))
  {
    hide Decode;
    var n := 0;
    while n < |s| && s[n] != 0
      invariant n <= |s| && forall i :: 0 <= i < n ==> s[i] != 0
    {
      n := n + 1;
    }
    TextEnds(s, n);
    r := DecodeText(s[..n]);
  }

  method DecodeText(s: seq<Byte>) returns (r: Option<seq<Byte>>)
    ensures r == Decode(s)
  {
    hide Value, Pow, Digits, Digit, IsSpace, DigitsOf, AllLetters, Leading, Spaces, WordLength, Copies, Bytes;
    var start := 0;
    while start < |s| && IsSpace(s[start])
      invariant start <= |s| && forall i :: 0 <= i < start ==> IsSpace(s[i])
    {
      start := start + 1;
    }
    SpacesAre(s, start);
    var t := s[start..];
    var zeroes := 0;
    while zeroes < |t| && t[zeroes] == ONE
      invariant zeroes <= |t| && forall i :: 0 <= i < zeroes ==> t[i] == ONE
    {
      zeroes := zeroes + 1;
    }
    var value, end := ReadWord(t, zeroes);
    if value.None? {
      return None;
    }
    while end < |t| && IsSpace(t[end])
      invariant WordLength(t) <= end <= |t| && forall i :: WordLength(t) <= i < end ==> IsSpace(t[i])
    {
      end := end + 1;
    }
    RestIsSpaces(t, end);
    if end < |t| {
      return None;
    }
    LeadingOnes(t, zeroes);
    r := Some(Copies(0, zeroes) + value.value);
  }

  /** Converts the letters up to the next space; nothing comes back for a word with other characters. */
  method ReadWord(t: seq<Byte>, zeroes: nat) returns (r: Option<seq<Byte>>, p: nat)
    requires zeroes <= |t| && forall i :: 0 <= i < zeroes ==> t[i] == ONE
    ensures r.Some? <==> AllLetters(t[..WordLength(t)])
    ensures r.Some? ==> p == WordLength(t)
    ensures r.Some? ==> r.value == Bytes(Digits(Value(DigitsOf(t[..WordLength(t)]), 58), 256))
  {
    hide Value, Pow, Digits, Digit, IsSpace, DigitsOf;
    var size := (|t| - zeroes) * 733 / 1000 + 1;
    DecodeFits(|t| - zeroes);
    var b256 := new nat[size](_ => 0);
    EmptyBuffer(b256[..], 256, [], 58);
    var length: nat := 0;
    p := zeroes;
    ghost var digits: seq<nat> := [];
    while p < |t| && !IsSpace(t[p])
      invariant zeroes <= p <= |t| && |digits| == p - zeroes && Below(digits, 58)
      invariant Reads(t, zeroes, p, digits)
      invariant length <= size && Below(b256[..], 256) && Zeroes(b256[..size - length])
      invariant Value(b256[..], 256) == Value(digits, 58)
    {
      var carry := Digit(t[p]);
      if carry == -1 {
        BadWord(t, zeroes, p);
        return None, p;
      }
      DigitLetter(t[p]);
      DigitFits(digits, carry, |t| - zeroes, size);
      length := MultiplyAdd(b256, length, 58, 256, carry);
      digits := digits + [carry];
      p := p + 1;
    }
    GoodWord(t, zeroes, p, digits);
    var it := SkipZeroes(b256, size - length, 256);
    r := Some(Bytes(b256[it..]));
  }

  /** The characters from `zeroes` to `p` are letters with these digits. */
  ghost predicate Reads(t: seq<Byte>, zeroes: nat, p: nat, digits: seq<nat>)
    requires zeroes <= p <= |t| && |digits| == p - zeroes
  {
    forall i :: zeroes <= i < p ==> !IsSpace(t[i]) && IsLetter(t[i]) && digits[i - zeroes] == Digit(t[i])
  }

  lemma SpacesAre(s: seq<Byte>, k: nat)
    requires k <= |s| && (forall i :: 0 <= i < k ==> IsSpace(s[i])) && (k < |s| ==> !IsSpace(s[k]))
    ensures Spaces(s) == k
  {
  }

  lemma WordIs(s: seq<Byte>, k: nat)
    requires k <= |s| && (forall i :: 0 <= i < k ==> !IsSpace(s[i])) && (k < |s| ==> IsSpace(s[k]))
    ensures WordLength(s) == k
  {
  }

  lemma DigitFits(digits: seq<nat>, d: nat, n: nat, size: nat)
    requires Below(digits, 58) && d < 58 && |digits| < n && Pow(58, n) <= Pow(256, size)
    ensures 58 * Value(digits, 58) + d == Value(digits + [d], 58) < Pow(256, size)
  {
    hide Pow;
    var more := digits + [d];
    assert more[..|more| - 1] == digits;
    ValueBound(more, 58);
    PowGrows(58, |more|, n);
  }

  lemma BadWord(t: seq<Byte>, zeroes: nat, p: nat)
    requires zeroes <= p < |t| && (forall i :: 0 <= i < zeroes ==> t[i] == ONE)
    requires (forall i :: zeroes <= i < p ==> !IsSpace(t[i]))
    requires !IsSpace(t[p]) && !IsLetter(t[p])
    ensures !AllLetters(t[..WordLength(t)])
  {
    hide Digit, IsSpace;
    OneIsLetter();
    var n := WordLength(t);
    assert forall i :: 0 <= i <= p ==> !IsSpace(t[i]);
    assert p < n;
    assert t[..n][p] == t[p];
  }

  /** The word that was read, and the number that it stands for. */
  lemma GoodWord(t: seq<Byte>, zeroes: nat, p: nat, digits: seq<nat>)
    requires zeroes <= p <= |t| && |digits| == p - zeroes && (forall i :: 0 <= i < zeroes ==> t[i] == ONE)
    requires Reads(t, zeroes, p, digits) && (p < |t| ==> IsSpace(t[p]))
    ensures WordLength(t) == p && AllLetters(t[..p]) && Value(DigitsOf(t[..p]), 58) == Value(digits, 58)
  {
    hide Digit, IsSpace, Value;
    OneIsLetter();
    WordIs(t, p);
    var none, w := seq(zeroes, _ => 0), t[..p];
    assert AllLetters(w);
    assert DigitsOf(w) == none + digits;
    ValueSkipsZeroes(none, digits, 58);
  }

  lemma OnesAreWord(t: seq<Byte>, zeroes: nat)
    requires zeroes <= |t| && forall i :: 0 <= i < zeroes ==> t[i] == ONE
    ensures zeroes <= WordLength(t) <= |t|
  {
    hide Digit, IsSpace;
    OneIsLetter();
  }

  lemma LeadingOnes(t: seq<Byte>, zeroes: nat)
    requires zeroes <= |t| && (forall i :: 0 <= i < zeroes ==> t[i] == ONE) && (zeroes < |t| ==> t[zeroes] != ONE)
    ensures Leading(t[..WordLength(t)], ONE) == zeroes
  {
    hide Digit, IsSpace, WordLength;
    OnesAreWord(t, zeroes);
    var n := WordLength(t);
    var w := t[..n];
    assert w == w[..zeroes] + w[zeroes..];
    LeadingOf(w[..zeroes], w[zeroes..], ONE);
  }

  lemma RestIsSpaces(t: seq<Byte>, end: nat)
    requires WordLength(t) <= end <= |t| && (forall i :: WordLength(t) <= i < end ==> IsSpace(t[i]))
    requires (end < |t| ==> !IsSpace(t[end]))
    ensures Spaces(t[WordLength(t)..]) == end - WordLength(t)
  {
    hide IsSpace;
    SpacesAre(t[WordLength(t)..], end - WordLength(t));
  }

  // ---------- with a checksum ----------

  /** The first four bytes of the hash of the data. */
  type CheckHash = seq<Byte> -> seq<Byte>

  ghost predicate FourBytes(hash: CheckHash) {
    forall b :: |hash(b)| == 4
  }

  ghost function DecodeCheck(hash: CheckHash, s: seq<Byte>): Option<seq<Byte>> {
    match Decode(s)
    case None => None
    case Some(b) =>
      if |b| < 4 || hash(b[..|b| - 4]) != b[|b| - 4..] then None else Some(b[..|b| - 4])
  }

  method EncodeBase58Check(hash: CheckHash, b: seq<Byte>) returns (text: seq<Byte>)
    ensures text == Encode(b + hash(b))
  {
    text := EncodeBase58(b + hash(b));
  }

  method DecodeBase58Check(hash: CheckHash, s: seq<Byte>) returns (r: Option<seq<Byte>>)
    ensures r == DecodeCheck(hash, Text(s))
  {
    hide Decode;
    var d := DecodeBase58(s);
    if d.None? || |d.value| < 4 {
      return None;
    }
    var b := d.value;
    if hash(b[..|b| - 4]) != b[|b| - 4..] {
      return None;
    }
    return Some(b[..|b| - 4]);
  }

  /**
  A text is decoded with its checksum if and only if its word is the encoding of the result and its checksum, and
  only spaces stand behind it.
   */
  lemma CheckRoundTrip(hash: CheckHash, s: seq<Byte>, b: seq<Byte>)
    requires FourBytes(hash)
    ensures DecodeCheck(hash, s) == Some(b) <==> Word(s) == Encode(b + hash(b)) && OnlySpacesBehind(s)
    ensures DecodeCheck(hash, Text(Encode(b + hash(b)))) == Some(b)
  {
    hide Decode, Encode, Word, OnlySpacesBehind, Text;
    var all := b + hash(b);
    assert all[..|all| - 4] == b && all[|all| - 4..] == hash(b);
    DecodeIsWord(s, all);
    RoundTrip(all);
    EncodedIsText(all);
    if DecodeCheck(hash, s) == Some(b) {
      assert Decode(s).value == all;
    }
  }
}
