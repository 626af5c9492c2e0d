/** Single bits of bytes. */
module ByteBits {
  function Mask(i: nat): bv8
    requires i < 8
  {
    1 << i
  }

  predicate Bit(b: bv8, i: nat)
    requires i < 8
  {
    b & Mask(i) != 0
  }

  /** Bit `p` of a string of bytes, least significant bit of the first byte first. */
  function BitAt(bytes: seq<bv8>, p: nat): bool
    requires p < 8 * |bytes|
  {
    Bit(bytes[p / 8], p % 8)
  }

  lemma MaskValue(i: nat)
    requires i < 8
    ensures Mask(i) == if i == 0 then 1 else if i == 1 then 2 else if i == 2 then 4 else if i == 3 then 8
                       else if i == 4 then 16 else if i == 5 then 32 else if i == 6 then 64 else 128
  {
  }

  lemma SetBit(b: bv8, i: nat, j: nat)
    requires i < 8 && j < 8
    ensures Bit(b | Mask(i), j) <==> i == j || Bit(b, j)
  {
    MaskValue(i);
    MaskValue(j);
  }

  lemma ClearBit(b: bv8, i: nat, j: nat)
    requires i < 8 && j < 8
    ensures Bit(b & !Mask(i), j) <==> i != j && Bit(b, j)
  {
    MaskValue(i);
    MaskValue(j);
  }

  lemma NoBit(i: nat)
    requires i < 8
    ensures !Bit(0, i)
  {
    MaskValue(i);
  }

  lemma EveryBit(i: nat)
    requires i < 8
    ensures Bit(0xFF, i)
  {
    MaskValue(i);
  }
}
