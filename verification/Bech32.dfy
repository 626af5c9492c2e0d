/** Bech32 strings: a human-readable part, the separator 1, and 5-bit symbols that end in a checksum. Text is bytes. */
module Bech32 {
  import opened Bech32Checksum
  import opened Bech32Errors

  type Text = seq<Byte>

  const SEPARATOR: Byte := 49
  const NO_VALUE: Byte := 255
  const MAX_LENGTH := 90

  /** The character of a symbol, from the set "qpzry9x8gf2tvdw0s3jn54khce6mua7l". */
  function Charset(v: Byte): Byte {
    if v == 0 then 113 else if v == 1 then 112 else if v == 2 then 122 else if v == 3 then 114 else if v == 4 then 121
    else if v == 5 then 57 else if v == 6 then 120 else if v == 7 then 56 else if v == 8 then 103
    else if v == 9 then 102
    else if v == 10 then 50 else if v == 11 then 116 else if v == 12 then 118 else if v == 13 then 100
    else if v == 14 then 119
    else if v == 15 then 48 else if v == 16 then 115 else if v == 17 then 51 else if v == 18 then 106
    else if v == 19 then 110
    else if v == 20 then 53 else if v == 21 then 52 else if v == 22 then 107 else if v == 23 then 104
    else if v == 24 then 99
    else if v == 25 then 101 else if v == 26 then 54 else if v == 27 then 109 else if v == 28 then 117
    else if v == 29 then 97
    else if v == 30 then 55
    else 108
  }

  function RevDigit(c: Byte): Byte {
    if c == 48 then 15 else if c == 50 then 10 else if c == 51 then 17 else if c == 52 then 21 else if c == 53 then 20
    else if c == 54 then 26 else if c == 55 then 30 else if c == 56 then 7 else if c == 57 then 5
    else NO_VALUE
  }

  function RevUpper(c: Byte): Byte {
    if c == 65 then 29 else if c == 67 then 24 else if c == 68 then 13 else if c == 69 then 25 else if c == 70 then 9
    else if c == 71 then 8 else if c == 72 then 23 else if c == 74 then 18 else if c == 75 then 22
    else if c == 76 then 31
    else if c == 77 then 27 else if c == 78 then 19 else if c == 80 then 1 else if c == 81 then 0 else if c == 82 then 3
    else if c == 83 then 16 else if c == 84 then 11 else if c == 85 then 28 else if c == 86 then 12
    else if c == 87 then 14
    else if c == 88 then 6 else if c == 89 then 4 else if c == 90 then 2
    else NO_VALUE
  }

  function RevLower(c: Byte): Byte {
    if c == 97 then 29 else if c == 99 then 24 else if c == 100 then 13 else if c == 101 then 25 else if c == 102 then 9
    else if c == 103 then 8 else if c == 104 then 23 else if c == 106 then 18 else if c == 107 then 22
    else if c == 108 then 31
    else if c == 109 then 27 else if c == 110 then 19 else if c == 112 then 1 else if c == 113 then 0
    else if c == 114 then 3
    else if c == 115 then 16 else if c == 116 then 11 else if c == 117 then 28 else if c == 118 then 12
    else if c == 119 then 14
    else if c == 120 then 6 else if c == 121 then 4 else if c == 122 then 2
    else NO_VALUE
  }

  /** The symbol of a character of either case. */
  function CharsetRev(c: Byte): Byte {
    if c < 64 then RevDigit(c) else if c < 96 then RevUpper(c) else RevLower(c)
  }

  predicate IsLower(c: Byte) {
    97 <= c <= 122
  }

  predicate IsUpper(c: Byte) {
    65 <= c <= 90
  }

  predicate IsPrintable(c: Byte) {
    33 <= c <= 126
  }

  function LowerCase(c: Byte): Byte {
    if IsUpper(c) then c - 65 + 97 else c
  }

  // ---------- characters ----------

  lemma CharsetDigit(v: Byte)
    requires v < 32 && Charset(v) < 64
    ensures RevDigit(Charset(v)) == v && 48 <= Charset(v) <= 57 && Charset(v) != SEPARATOR
  {
  }

  lemma CharsetLetter(v: Byte)
    requires v < 32 && Charset(v) >= 64
    ensures RevLower(Charset(v)) == v && IsLower(Charset(v))
  {
  }

  lemma CharsetInverse(v: Byte)
    requires v < 32
    ensures CharsetRev(Charset(v)) == v && Charset(v) != SEPARATOR && IsPrintable(Charset(v)) && !IsUpper(Charset(v))
  {
    hide Charset, RevDigit, RevLower, RevUpper;
    if Charset(v) < 64 {
      CharsetDigit(v);
    } else {
      CharsetLetter(v);
    }
  }

  lemma RevDigitInverse(c: Byte)
    requires RevDigit(c) != NO_VALUE
    ensures RevDigit(c) < 32 && Charset(RevDigit(c)) == c && c != SEPARATOR && c < 64
  {
  }

  lemma RevLowerInverse(c: Byte)
    requires RevLower(c) != NO_VALUE
    ensures RevLower(c) < 32 && Charset(RevLower(c)) == c && IsLower(c)
  {
  }

  lemma RevUpperIsLetter(c: Byte)
    requires 64 <= c < 96
    ensures if IsUpper(c) then RevUpper(c) == RevLower(LowerCase(c)) else RevUpper(c) == NO_VALUE
  {
  }

  lemma CharsetRevInverse(c: Byte)
    requires CharsetRev(c) != NO_VALUE
    ensures CharsetRev(c) < 32 && Charset(CharsetRev(c)) == LowerCase(c) && c != SEPARATOR
  {
    hide Charset, RevDigit, RevLower, RevUpper;
    if c < 64 {
      RevDigitInverse(c);
    } else if c < 96 {
      RevUpperIsLetter(c);
      RevLowerInverse(LowerCase(c));
    } else {
      RevLowerInverse(c);
    }
  }

  lemma CharsetRevOfLower(c: Byte)
    ensures CharsetRev(LowerCase(c)) == CharsetRev(c)
  {
    hide Charset, RevDigit, RevLower, RevUpper;
    if 64 <= c < 96 {
      RevUpperIsLetter(c);
    }
  }

  lemma LowerFacts(c: Byte)
    ensures !IsUpper(LowerCase(c)) && (LowerCase(c) == SEPARATOR <==> c == SEPARATOR)
    ensures IsPrintable(LowerCase(c)) <==> IsPrintable(c)
    ensures !IsUpper(c) ==> LowerCase(c) == c
  {
  }

  // ---------- the functions ----------

  function High(c: Byte): Byte {
    c >> 5
  }

  function Low(c: Byte): Byte {
    c & 0x1f
  }

  function HighBits(hrp: Text): Text {
    seq(|hrp|, i requires 0 <= i < |hrp| => High(hrp[i]))
  }

  function LowBits(hrp: Text): Text {
    seq(|hrp|, i requires 0 <= i < |hrp| => Low(hrp[i]))
  }

  /** The human-readable part as the checksum sees it. */
  function ExpandHrp(hrp: Text): Text {
    HighBits(hrp) + [0] + LowBits(hrp)
  }

  /** The remainder after the human-readable part and the symbols. */
  function State(hrp: Text, values: seq<Byte>): bv32 {
    Poly(1, ExpandHrp(hrp) + values)
  }

  function Chars(values: seq<Byte>): Text {
    seq(|values|, i requires 0 <= i < |values| => Charset(values[i]))
  }

  function Symbols(text: Text): seq<Byte> {
    seq(|text|, i requires 0 <= i < |text| => CharsetRev(text[i]))
  }

  function LowerText(text: Text): Text {
    seq(|text|, i requires 0 <= i < |text| => LowerCase(text[i]))
  }

  function Encode(hrp: Text, values: seq<Byte>): Text {
    hrp + [SEPARATOR] + Chars(values + Checksum(State(hrp, values)))
  }

  datatype Decoded = Failure | Success(hrp: Text, values: seq<Byte>)

  ghost predicate Mixed(s: Text) {
    (exists i :: 0 <= i < |s| && IsLower(s[i])) && (exists i :: 0 <= i < |s| && IsUpper(s[i]))
  }

  ghost predicate Printable(s: Text) {
    forall i :: 0 <= i < |s| ==> IsPrintable(s[i])
  }

  ghost predicate AllSymbols(s: Text) {
    forall i :: 0 <= i < |s| ==> CharsetRev(s[i]) != NO_VALUE
  }

  /** The position of the last separator, or -1. */
  function LastSeparator(s: Text): (pos: int)
    ensures -1 <= pos < |s| && (pos >= 0 ==> s[pos] == SEPARATOR) && forall i :: pos < i < |s| ==> s[i] != SEPARATOR
  {
    if s == [] then -1 else if s[|s| - 1] == SEPARATOR then |s| - 1 else LastSeparator(s[..|s| - 1])
  }

  ghost function Decode(s: Text): Decoded {
    var pos := LastSeparator(s);
    if !Printable(s) || Mixed(s) || |s| > MAX_LENGTH || pos <= 0 || pos + 7 > |s|
        || !AllSymbols(s[pos + 1..]) then Failure else
      var values, hrp := Symbols(s[pos + 1..]), LowerText(s[..pos]);
      if State(hrp, values) != 1 then Failure else Success(hrp, values[..|values| - 6])
  }

  // ---------- the checksum in context ----------

  lemma StateSplit(hrp: Text, a: seq<Byte>, b: seq<Byte>)
    ensures State(hrp, a + b) == Poly(State(hrp, a), b) && State(hrp, a) < MODULUS_BITS
  {
    hide Poly;
    assert ExpandHrp(hrp) + (a + b) == (ExpandHrp(hrp) + a) + b;
    PolyConcat(1, ExpandHrp(hrp) + a, b);
    PolyRange(1, ExpandHrp(hrp) + a);
  }

  /** Six symbols complete a text to one that verifies if and only if they are its checksum. */
  lemma VerifiesOnlyChecksum(hrp: Text, values: seq<Byte>, r: seq<Byte>)
    requires |r| == 6 && FiveBit(r)
    ensures State(hrp, values + r) == 1 <==> r == Checksum(State(hrp, values))
  {
    hide State, Checksum;
    StateSplit(hrp, values, r);
    ChecksumIsUnique(State(hrp, values), r);
  }

  lemma ChecksumSymbols(c: bv32)
    ensures |Checksum(c)| == 6 && FiveBit(Checksum(c))
  {
    hide Group, Poly, Plus;
    forall i | 0 <= i < 6
      ensures Checksum(c)[i] < 32
    {
      GroupRange(Plus(Poly(c, ZEROES), 1), i);
    }
  }

  /**
  Two texts with the same human-readable part that both verify cannot differ only within six neighbouring
  symbols; in particular not in one symbol, wherever it stands.
   */
  lemma ErrorsAreDetected(hrp: Text, before: seq<Byte>, u: seq<Byte>, w: seq<Byte>, after: seq<Byte>)
    requires |u| == |w| <= 6 && FiveBit(u) && FiveBit(w)
    requires State(hrp, before + u + after) == 1 && State(hrp, before + w + after) == 1
    ensures u == w
  {
    hide State;
    assert before + u + after == before + (u + after) && before + w + after == before + (w + after);
    StateSplit(hrp, before, u + after);
    StateSplit(hrp, before, w + after);
    BurstsShow(State(hrp, before), u, w, after);
  }

  /** They cannot differ in up to three symbols either, wherever these stand within 1023 of each other. */
  lemma ThreeErrorsAreDetected(hrp: Text, u: seq<Byte>, w: seq<Byte>)
    requires |u| == |w| && FiveBit(u) && FiveBit(w)
    requires |Differences(u, w)| <= 3 && InWindow(Differences(u, w))
    requires State(hrp, u) == 1 && State(hrp, w) == 1
    ensures u == w
  {
    hide State, Differences, InWindow;
    assert [] + u == u && [] + w == w;
    StateSplit(hrp, [], u);
    StateSplit(hrp, [], w);
    ThreeErrorsShow(State(hrp, []), u, w);
  }

  // ---------- decoding is the inverse of encoding ----------

  ghost predicate ValidHrp(hrp: Text) {
    hrp != [] && Printable(hrp) && forall i :: 0 <= i < |hrp| ==> !IsUpper(hrp[i])
  }

  /** `s` is the encoding of `hrp` and `values`, in lower or in upper case. */
  ghost predicate Spells(s: Text, hrp: Text, values: seq<Byte>) {
    !Mixed(s) && |s| <= MAX_LENGTH && ValidHrp(hrp) && FiveBit(values) && LowerText(s) == Encode(hrp, values)
  }

  /** What is decoded spells the string. */
  lemma DecodedSpells(s: Text, hrp: Text, values: seq<Byte>)
    requires Decode(s) == Success(hrp, values)
    ensures Spells(s, hrp, values)
  {
    hide Charset, CharsetRev, LowerCase, State, Checksum, IsPrintable, IsUpper, IsLower;
    var pos := LastSeparator(s);
    var all := Symbols(s[pos + 1..]);
    var sum := all[|all| - 6..];
    assert all == values + sum;
    forall i | 0 <= i < |all|
      ensures all[i] < 32 && Charset(all[i]) == LowerCase(s[pos + 1 + i])
    {
      assert s[pos + 1..][i] == s[pos + 1 + i];
      CharsetRevInverse(s[pos + 1 + i]);
    }
    VerifiesOnlyChecksum(hrp, values, sum);
    forall i | 0 <= i < pos
      ensures IsPrintable(hrp[i]) && !IsUpper(hrp[i])
    {
      LowerFacts(s[i]);
    }
    LowerFacts(s[pos]);
    SpelledOut(s, pos, hrp, all);
  }

  lemma SpelledOut(s: Text, pos: nat, hrp: Text, all: seq<Byte>)
    requires pos < |s| && hrp == LowerText(s[..pos]) && LowerCase(s[pos]) == SEPARATOR && |all| == |s| - pos - 1
    requires forall i :: 0 <= i < |all| ==> Charset(all[i]) == LowerCase(s[pos + 1 + i])
    ensures LowerText(s) == hrp + [SEPARATOR] + Chars(all)
  {
    hide Charset, LowerCase;
    var t := hrp + [SEPARATOR] + Chars(all);
    forall i | 0 <= i < |s|
      ensures LowerText(s)[i] == t[i]
    {
      if i > pos {
        assert t[i] == Chars(all)[i - pos - 1];
        assert LowerCase(s[pos + 1 + (i - pos - 1)]) == Charset(all[i - pos - 1]);
      }
    }
  }

  /** A string that is spelled is decoded. */
  lemma SpelledDecodes(s: Text, hrp: Text, values: seq<Byte>)
    requires Spells(s, hrp, values)
    ensures Decode(s) == Success(hrp, values)
  {
    hide Charset, CharsetRev, LowerCase, State, Checksum, IsPrintable, IsUpper, IsLower;
    var pos := |hrp|;
    var sum := Checksum(State(hrp, values));
    ChecksumSymbols(State(hrp, values));
    var all := values + sum;
    var t := LowerText(s);
    assert t == hrp + [SEPARATOR] + Chars(all);
    forall i | 0 <= i < |s|
      ensures IsPrintable(s[i])
      ensures i < pos ==> LowerCase(s[i]) == hrp[i]
      ensures i == pos ==> s[i] == SEPARATOR
      ensures i > pos ==> s[i] != SEPARATOR && CharsetRev(s[i]) == all[i - pos - 1]
    {
      LowerFacts(s[i]);
      assert t[i] == LowerCase(s[i]);
      SeparatorIsPrintable();
      if i > pos {
        assert t[i] == Chars(all)[i - pos - 1] == Charset(all[i - pos - 1]);
        CharsetInverse(all[i - pos - 1]);
        CharsetRevOfLower(s[i]);
      }
    }
    SeparatorAt(s, pos);
    var tail := s[pos + 1..];
    assert Symbols(tail) == all;
    assert LowerText(s[..pos]) == hrp;
    forall i | 0 <= i < |tail|
      ensures CharsetRev(tail[i]) != NO_VALUE
    {
      assert CharsetRev(tail[i]) == all[i] < 32;
    }
    VerifiesOnlyChecksum(hrp, values, sum);
    assert all[..|all| - 6] == values;
  }

  lemma SeparatorAt(s: Text, pos: nat)
    requires pos < |s| && s[pos] == SEPARATOR && forall i :: pos < i < |s| ==> s[i] != SEPARATOR
    ensures LastSeparator(s) == pos
  {
  }

  lemma SeparatorIsPrintable()
    ensures IsPrintable(SEPARATOR)
  {
  }

  /**
  Decoding succeeds with a result if and only if the string, of at most 90 characters and not of mixed case, is the
  encoding of that result.
   */
  lemma DecodeInvertsEncode(s: Text, hrp: Text, values: seq<Byte>)
    ensures Decode(s) == Success(hrp, values) <==> Spells(s, hrp, values)
  {
    hide Decode, Spells;
    if Decode(s) == Success(hrp, values) {
      DecodedSpells(s, hrp, values);
    }
    if Spells(s, hrp, values) {
      SpelledDecodes(s, hrp, values);
    }
  }

  lemma RoundTrip(hrp: Text, values: seq<Byte>)
    requires ValidHrp(hrp) && FiveBit(values) && |hrp| + |values| + 7 <= MAX_LENGTH
    ensures Decode(Encode(hrp, values)) == Success(hrp, values)
  {
    hide Charset, LowerCase, State, Checksum, IsPrintable, IsUpper, IsLower;
    var s := Encode(hrp, values);
    var all := values + Checksum(State(hrp, values));
    ChecksumSymbols(State(hrp, values));
    forall i | 0 <= i < |s|
      ensures LowerCase(s[i]) == s[i] && !IsUpper(s[i])
    {
      LowerFacts(s[i]);
      SeparatorHasNoCase();
      if i > |hrp| {
        assert s[i] == Chars(all)[i - |hrp| - 1];
        CharsetInverse(all[i - |hrp| - 1]);
      }
    }
    assert LowerText(s) == s;
    SpelledDecodes(s, hrp, values);
  }

  lemma SeparatorHasNoCase()
    ensures !IsUpper(SEPARATOR)
  {
  }

  // ---------- the methods ----------

  method ComputeExpandHrp(hrp: Text) returns (ret: Text)
    ensures ret == ExpandHrp(hrp)
  {
    hide High, Low;
    ret := seq(2 * |hrp| + 1, _ => 0);
    for i := 0 to |hrp|
      invariant |ret| == 2 * |hrp| + 1
      invariant forall j :: 0 <= j < i ==> ret[j] == High(hrp[j]) && ret[j + |hrp| + 1] == Low(hrp[j])
    {
      ret := ret[i := High(hrp[i])][i + |hrp| + 1 := Low(hrp[i])];
    }
    ret := ret[|hrp| := 0];
    assert ret[..|hrp|] == HighBits(hrp) && ret[|hrp| + 1..] == LowBits(hrp);
  }

  method VerifyChecksum(hrp: Text, values: seq<Byte>) returns (ok: bool)
    ensures ok <==> State(hrp, values) == 1
  {
    var expanded := ComputeExpandHrp(hrp);
    var c := PolyMod(expanded + values);
    ok := c == 1;
  }

  method CreateChecksum(hrp: Text, values: seq<Byte>) returns (ret: seq<Byte>)
    ensures ret == Checksum(State(hrp, values))
  {
    hide Poly, Plus, Group, Lead, Shifted;
    var expanded := ComputeExpandHrp(hrp);
    var enc := expanded + values + ZEROES;
    var mod := PolyMod(enc);
    PolyConcat(1, expanded + values, ZEROES);
    mod := Plus(mod, 1);
    ret := [];
    for i := 0 to 6
      invariant |ret| == i && forall j :: 0 <= j < i ==> ret[j] == Group(mod, j)
    {
      GroupByShift(mod, i);
      ret := ret + [Low5(Shifted(mod, 5 - i))];
    }
  }

  function Low5(x: bv32): Byte {
    (x & 31) as Byte
  }

  lemma GroupByShift(m: bv32, i: nat)
    requires i < 6
    ensures Group(m, i) == Low5(Shifted(m, 5 - i))
  {
    hide Lead, Shifted;
    LeadByShift(m, i);
  }

  method ComputeEncode(hrp: Text, values: seq<Byte>) returns (ret: Text)
    requires FiveBit(values)
    ensures ret == Encode(hrp, values)
  {
    hide State, Checksum, Charset;
    var checksum := CreateChecksum(hrp, values);
    var combined := values + checksum;
    ret := hrp + [SEPARATOR];
    for i := 0 to |combined|
      invariant ret == hrp + [SEPARATOR] + Chars(combined[..i])
    {
      ret := ret + [Charset(combined[i])];
      assert Chars(combined[..i + 1]) == Chars(combined[..i]) + [Charset(combined[i])];
    }
    assert combined[..|combined|] == combined;
  }

  /** Whether all characters are printable, and which cases occur. */
  method CheckCharacters(s: Text) returns (printable: bool, lower: bool, upper: bool)
    ensures printable <==> Printable(s)
    ensures printable ==> (lower && upper <==> Mixed(s))
  {
    printable, lower, upper := true, false, false;
    for i := 0 to |s|
      invariant printable && Printable(s[..i])
      invariant lower <==> exists j :: 0 <= j < i && IsLower(s[j])
      invariant upper <==> exists j :: 0 <= j < i && IsUpper(s[j])
    {
      if IsLower(s[i]) {
        lower := true;
      } else if IsUpper(s[i]) {
        upper := true;
      } else if !IsPrintable(s[i]) {
        return false, lower, upper;
      }
    }
  }

  method ComputeDecode(s: Text) returns (r: Decoded)
    ensures r == Decode(s)
  {
    hide State, CharsetRev, LowerCase, IsLower, IsUpper, IsPrintable, Mixed, Printable, LastSeparator;
    var printable, lower, upper := CheckCharacters(s);
    if !printable {
      return Failure;
    }
    if lower && upper {
      return Failure;
    }
    var pos := FindSeparator(s);
    if |s| > MAX_LENGTH || pos == -1 || pos == 0 || pos + 7 > |s| {
      return Failure;
    }
    ghost var tail := s[pos + 1..];
    var values: seq<Byte> := seq(|s| - 1 - pos, _ => 0);
    for i := 0 to |values|
      invariant |values| == |tail|
      invariant forall j :: 0 <= j < i ==> CharsetRev(tail[j]) != NO_VALUE && values[j] == CharsetRev(tail[j])
    {
      var rev := CharsetRev(s[i + pos + 1]);
      if rev == NO_VALUE {
        assert CharsetRev(tail[i]) == NO_VALUE;
        return Failure;
      }
      values := values[i := rev];
    }
    assert values == Symbols(tail);
    var hrp: Text := [];
    for i := 0 to pos
      invariant hrp == LowerText(s[..i])
    {
      hrp := hrp + [LowerCase(s[i])];
    }
    var ok := VerifyChecksum(hrp, values);
    if !ok {
      return Failure;
    }
    return Success(hrp, values[..|values| - 6]);
  }

  method FindSeparator(s: Text) returns (pos: int)
    ensures pos == LastSeparator(s)
  {
    pos := |s| - 1;
    while pos >= 0 && s[pos] != SEPARATOR
      invariant -1 <= pos < |s| && forall i :: pos < i < |s| ==> s[i] != SEPARATOR
    {
      pos := pos - 1;
    }
    if pos >= 0 {
      SeparatorAt(s, pos);
    }
  }
}
