/** Single bits of 64-bit words. */
module Words {
  type Word = bv64

  const ALL_ONES: Word := 0xFFFF_FFFF_FFFF_FFFF

  function Mask(b: Word): Word
    requires b < 64
  {
    1 << b
  }

  predicate Bit(x: Word, b: Word)
    requires b < 64
  {
    x & Mask(b) != 0
  }

  // ---------- and, or, exclusive or ----------

  function And(x: Word, y: Word): Word {
    x & y
  }

  function Or(x: Word, y: Word): Word {
    x | y
  }

  lemma BothBits(x: Word, y: Word, b: Word)
    requires b < 64 && Bit(x, b) && Bit(y, b)
    ensures Bit(And(x, y), b)
  {
  }

  lemma NotBothBits(x: Word, y: Word, b: Word)
    requires b < 64 && (!Bit(x, b) || !Bit(y, b))
    ensures !Bit(And(x, y), b)
  {
    hide Mask;
  }

  lemma BitOfAnd(x: Word, y: Word, b: Word)
    requires b < 64
    ensures Bit(And(x, y), b) <==> Bit(x, b) && Bit(y, b)
  {
    hide Bit, And;
    if Bit(x, b) && Bit(y, b) {
      BothBits(x, y, b);
    } else {
      NotBothBits(x, y, b);
    }
  }

  lemma EitherBit(x: Word, y: Word, b: Word)
    requires b < 64 && (Bit(x, b) || Bit(y, b))
    ensures Bit(Or(x, y), b)
  {
  }

  lemma NeitherBit(x: Word, y: Word, b: Word)
    requires b < 64 && !Bit(x, b) && !Bit(y, b)
    ensures !Bit(Or(x, y), b)
  {
    hide Mask;
  }

  lemma BitOfOr(x: Word, y: Word, b: Word)
    requires b < 64
    ensures Bit(Or(x, y), b) <==> Bit(x, b) || Bit(y, b)
  {
    hide Bit, Or;
    if Bit(x, b) || Bit(y, b) {
      EitherBit(x, y, b);
    } else {
      NeitherBit(x, y, b);
    }
  }

  lemma FlippedDown(x: Word, b: Word)
    requires b < 64 && Bit(x, b)
    ensures !Bit(XorAll(x, true), b)
  {
  }

  lemma FlippedUp(x: Word, b: Word)
    requires b < 64 && !Bit(x, b)
    ensures Bit(XorAll(x, true), b)
  {
  }

  /** Exclusive or with a word of equal bits. */
  function XorAll(x: Word, ones: bool): Word {
    x ^ (if ones then ALL_ONES else 0)
  }

  lemma KeptByZero(x: Word)
    ensures XorAll(x, false) == x
  {
  }

  lemma BitOfXorAll(x: Word, ones: bool, b: Word)
    requires b < 64
    ensures Bit(XorAll(x, ones), b) <==> Bit(x, b) != ones
  {
    hide Bit, XorAll;
    if !ones {
      KeptByZero(x);
    } else if Bit(x, b) {
      FlippedDown(x, b);
    } else {
      FlippedUp(x, b);
    }
  }

  // ---------- writing and shifting ----------

  function SetBit(x: Word, b: Word): Word
    requires b < 64
  {
    (x & !Mask(b)) | (1 << b)
  }

  function ClearBit(x: Word, b: Word): Word
    requires b < 64
  {
    (x & !Mask(b)) | (0 << b)
  }

  lemma Written(x: Word, b: Word)
    requires b < 64
    ensures Bit(SetBit(x, b), b) && !Bit(ClearBit(x, b), b)
  {
  }

  lemma KeptElsewhere(x: Word, b: Word, c: Word)
    requires b < 64 && c < 64 && b != c && Bit(x, c)
    ensures Bit(SetBit(x, b), c) && Bit(ClearBit(x, b), c)
  {
  }

  lemma ClearElsewhere(x: Word, b: Word, c: Word)
    requires b < 64 && c < 64 && b != c && !Bit(x, c)
    ensures !Bit(SetBit(x, b), c) && !Bit(ClearBit(x, b), c)
  {
  }

  function WriteBit(x: Word, b: Word, on: bool): Word
    requires b < 64
  {
    if on then SetBit(x, b) else ClearBit(x, b)
  }

  lemma BitOfWrite(x: Word, b: Word, on: bool, c: Word)
    requires b < 64 && c < 64
    ensures Bit(WriteBit(x, b, on), c) <==> if b == c then on else Bit(x, c)
  {
    hide SetBit, ClearBit, Bit;
    if b == c {
      Written(x, b);
    } else if Bit(x, c) {
      KeptElsewhere(x, b, c);
    } else {
      ClearElsewhere(x, b, c);
    }
  }

  predicate BottomBit(x: Word, b: Word)
    requires b < 64
  {
    (x >> b) & 1 != 0
  }

  lemma ShiftedZero(x: Word, u: Word)
    requires u < 64 && !Bit(x, u)
    ensures !BottomBit(x, u)
  {
  }

  lemma ShiftedOne(x: Word, u: Word)
    requires u < 64 && Bit(x, u)
    ensures BottomBit(x, u)
  {
  }

  /** Shifting a bit down to the bottom finds it too. */
  lemma BitByShift(x: Word, b: Word)
    requires b < 64
    ensures BottomBit(x, b) <==> Bit(x, b)
  {
    hide Bit, BottomBit;
    if Bit(x, b) {
      ShiftedOne(x, b);
    } else {
      ShiftedZero(x, b);
    }
  }

  lemma BitOfConstant(b: Word)
    requires b < 64
    ensures Bit(ALL_ONES, b) && !Bit(0, b)
  {
  }
}
