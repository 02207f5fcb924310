/**
 * Sign extension of a len-bit quantity held in the low bits of a 32-bit word
 * (src/helpers.rs).
 */
module Helpers {
  import opened Rv32

  /** Bit i of w, counting from the least significant bit. */
  predicate Bit(w: Word, i: bv6)
    requires i < 32
  {
    (w >> i) & 1 == 1
  }

  /** The mask of the low len bits of a word, for a width below 32. */
  function LowMask(len: bv6): Word
    requires len < 32
  {
    (1 << len) - 1
  }

  /** Bit len-1 of value, as a word that is 0 or 1. */
  function SignBit(value: Word, len: bv6): Word
    requires 0 < len < 32
  {
    (value >> (len - 1)) & 1
  }

  /** Every bit from len upward set, built the way the source builds it. */
  function HighFill(len: bv6): Word
    requires 0 < len < 32
  {
    ((1 << (32 - len)) - 1) << len
  }

  /**
   * sext(value, len): keeps the low len bits of value and fills every bit at
   * or above len with bit len-1.  The source asserts 0 < len <= 32 and aborts
   * otherwise; that assertion is the precondition here.
   */
  function Sext(value: Word, len: bv6): Word
    requires 0 < len <= 32
  {
    if len == 32 then value
    else
      var sign := SignBit(value, len);
      var mask := LowMask(len);
      if sign == 0 then value & mask else (value & mask) | HighFill(len)
  }

  /** At full width sext is the identity. */
  lemma SextFullWidth(value: Word)
    ensures Sext(value, 32) == value
  {
  }

  /** The low len bits of the result are those of value. */
  lemma SextKeepsLow(value: Word, len: bv6)
    requires 0 < len < 32
    ensures Sext(value, len) & LowMask(len) == value & LowMask(len)
  {
    if SignBit(value, len) == 0 {
      KeepsLowClear(value, len);
    } else {
      KeepsLowSet(value, len);
    }
  }

  lemma KeepsLowClear(value: Word, len: bv6)
    requires 0 < len < 32 && SignBit(value, len) == 0
    ensures Sext(value, len) & LowMask(len) == value & LowMask(len)
  {
    SextWhenClear(value, len);
    FillNone(value, LowMask(len));
  }

  lemma KeepsLowSet(value: Word, len: bv6)
    requires 0 < len < 32 && SignBit(value, len) != 0
    ensures Sext(value, len) & LowMask(len) == value & LowMask(len)
  {
    SextWhenSet(value, len);
    FillAll(value, LowMask(len));
  }

  /** Every bit at or above len is a copy of bit len-1 of value. */
  lemma SextFillsHigh(value: Word, len: bv6)
    requires 0 < len < 32
    ensures !Bit(value, len - 1) ==> Sext(value, len) & !LowMask(len) == 0
    ensures Bit(value, len - 1) ==> Sext(value, len) & !LowMask(len) == !LowMask(len)
  {
    SignBitIsBit(value, len);
    if SignBit(value, len) == 0 {
      SextWhenClear(value, len);
      FillNone(value, LowMask(len));
    } else {
      SextWhenSet(value, len);
      FillAll(value, LowMask(len));
    }
  }

  /** With bit len-1 clear, sext keeps only the low len bits. */
  lemma SextWhenClear(value: Word, len: bv6)
    requires 0 < len < 32 && SignBit(value, len) == 0
    ensures Sext(value, len) == value & LowMask(len)
  {
  }

  /** With bit len-1 set, sext sets every bit from len upward. */
  lemma SextWhenSet(value: Word, len: bv6)
    requires 0 < len < 32 && SignBit(value, len) != 0
    ensures Sext(value, len) == (value & LowMask(len)) | !LowMask(len)
  {
    SextWhenSetFill(value, len);
    HighFillIsComplement(len);
  }

  lemma SextWhenSetFill(value: Word, len: bv6)
    requires 0 < len < 32 && SignBit(value, len) != 0
    ensures Sext(value, len) == (value & LowMask(len)) | HighFill(len)
  {
  }

  /** Bit by bit: below len the result copies value. */
  lemma SextBitBelow(value: Word, len: bv6, i: bv6)
    requires 0 < len <= 32 && i < len
    ensures Bit(Sext(value, len), i) == Bit(value, i)
  {
    if len < 32 {
      SextKeepsLow(value, len);
      BitUnderMask(Sext(value, len), len, i);
      BitUnderMask(value, len, i);
    }
  }

  /** Bit by bit: at and above len the result copies the sign bit len-1. */
  lemma SextBitAbove(value: Word, len: bv6, i: bv6)
    requires 0 < len <= i < 32
    ensures Bit(Sext(value, len), i) == Bit(value, len - 1)
  {
    SextFillsHigh(value, len);
    BitOverMask(Sext(value, len), len, i);
    BitsOfHigh(len, i);
  }

  /** Bits of value at or above len have no influence on the result. */
  lemma SextIgnoresHigh(value: Word, len: bv6)
    requires 0 < len < 32
    ensures Sext(value & LowMask(len), len) == Sext(value, len)
  {
    MaskedSign(value, len);
    FillNone(value, LowMask(len));
  }

  /** The result depends only on the low len bits of the argument. */
  lemma SextCongruent(a: Word, b: Word, len: bv6)
    requires 0 < len < 32
    requires a & LowMask(len) == b & LowMask(len)
    ensures Sext(a, len) == Sext(b, len)
  {
    SextIgnoresHigh(a, len);
    SextIgnoresHigh(b, len);
  }

  /** Sign-extending twice is the same as once. */
  lemma SextIdempotent(value: Word, len: bv6)
    requires 0 < len <= 32
    ensures Sext(Sext(value, len), len) == Sext(value, len)
  {
    if len < 32 {
      SextKeepsLow(value, len);
      SextCongruent(Sext(value, len), value, len);
    }
  }

  // Facts about the individual masks, each about a single shift.

  lemma HighFillIsComplement(len: bv6)
    requires 0 < len < 32
    ensures HighFill(len) == !LowMask(len)
  {
  }

  lemma SignBitIsBit(value: Word, len: bv6)
    requires 0 < len < 32
    ensures Bit(value, len - 1) <==> SignBit(value, len) != 0
  {
    LowBitSet(value >> (len - 1));
  }

  lemma MaskedSign(value: Word, len: bv6)
    requires 0 < len < 32
    ensures SignBit(value & LowMask(len), len) == SignBit(value, len)
  {
  }

  lemma BitUnderMask(a: Word, len: bv6, i: bv6)
    requires i < len < 32
    ensures Bit(a & LowMask(len), i) == Bit(a, i)
  {
    BitAnd(a, LowMask(len), i);
    BitsOfLow(len, i);
  }

  lemma BitOverMask(a: Word, len: bv6, i: bv6)
    requires len <= i < 32
    ensures Bit(a & !LowMask(len), i) == Bit(a, i)
  {
    BitAnd(a, !LowMask(len), i);
    BitsOfHigh(len, i);
  }

  lemma BitAnd(a: Word, b: Word, i: bv6)
    requires i < 32
    ensures Bit(a & b, i) == (Bit(a, i) && Bit(b, i))
  {
  }

  lemma BitsOfLow(len: bv6, i: bv6)
    requires i < len < 32
    ensures Bit(LowMask(len), i)
  {
  }

  lemma BitsOfHigh(len: bv6, i: bv6)
    requires len <= i < 32
    ensures Bit(!LowMask(len), i) && !Bit(0, i)
  {
  }

  // Facts about masks taken as plain words.

  lemma LowBitSet(x: Word)
    ensures x & 1 == 1 <==> x & 1 != 0
  {
  }

  lemma FillNone(v: Word, m: Word)
    ensures (v & m) & m == v & m
    ensures (v & m) & !m == 0
  {
  }

  lemma FillAll(v: Word, m: Word)
    ensures ((v & m) | !m) & m == v & m
    ensures ((v & m) | !m) & !m == !m
  {
  }
}
