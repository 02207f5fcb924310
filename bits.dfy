/**
 * The match_mask template compiler (lib/bits/src/lib.rs).  A template is a
 * string of '0', '1' and wildcard characters, most significant bit first.
 * The compiler walks it from the right, setting bit idx of `zeros` for every
 * literal and bit idx of `ones` for every '1'; the generated check on a word
 * is `(word & zeros) ^ ones == 0`.
 */
module Bits {
  import opened Rv32

  /** The two constants the macro emits for one template. */
  datatype Masks = Masks(zeros: Word, ones: Word)

  /** Which of the two constants is being built. */
  datatype Kind = Zeros | Ones

  /** A character that fixes its bit; every other character is a wildcard. */
  predicate IsLiteral(c: char) { c == '0' || c == '1' }

  /** Whether character c sets its bit in the constant of kind k. */
  predicate Sets(k: Kind, c: char)
  {
    if k == Zeros then IsLiteral(c) else c == '1'
  }

  /** The word with only bit n set, or 0 once n is past bit 31. */
  function Pow(n: nat): Word
  {
    if n == 0 then 1 else Pow(n - 1) << 1
  }

  function ShiftIn(w: Word, b: bool): Word
  {
    (w << 1) | Digit(b)
  }

  /** A truth value as a one-bit digit. */
  function Digit(b: bool): Word
  {
    if b then 1 else 0
  }

  /**
   * Reference reading of a template: its first n characters as a binary
   * numeral, most significant digit first, with digit 1 wherever the
   * character sets its bit in constant k.  Digits pushed past bit 31 drop out.
   */
  function Numeral(k: Kind, t: string, n: nat): Word
    requires n <= |t|
  {
    if n == 0 then 0 else ShiftIn(Numeral(k, t, n - 1), Sets(k, t[n - 1]))
  }

  /** Both constants of a whole template, by the reference reading. */
  function Compile(t: string): (r: Masks)
    ensures And(r.ones, r.zeros) == r.ones
  {
    OnesWithin(t, |t|);
    Masks(Numeral(Zeros, t, |t|), Numeral(Ones, t, |t|))
  }

  /** No literal sits 32 or more places from the right end. */
  predicate Fits(t: string)
  {
    forall j :: 0 <= j < |t| - 32 ==> !IsLiteral(t[j])
  }

  /**
   * The macro's mask-building loop.  A literal at index 32 or above makes
   * `1 << idx` overflow a u32, which aborts the expansion.
   */
  method MatchMask(tokens: string) returns (r: Result<Masks>)
    ensures r.Ok? <==> Fits(tokens)
    ensures r.Ok? ==> r.value == Compile(tokens)
    ensures r.Err? ==> r.error.ShiftOverflow? && r.error.index >= 32
  {
    hide Numeral, Place, Pow, Compile, Fits, Tail, SetBit;
    var ones: Word := 0;
    var zeros: Word := 0;
    var idx := 0;
    NumeralEmpty(tokens);
    while idx < |tokens|
      invariant idx <= |tokens|
      invariant zeros == Numeral(Zeros, Tail(tokens, idx), idx)
      invariant ones == Numeral(Ones, Tail(tokens, idx), idx)
      invariant forall j :: |tokens| - idx <= j < |tokens| - 32 ==> !IsLiteral(tokens[j])
    {
      var bit := tokens[|tokens| - 1 - idx];
      LoopStep(Zeros, tokens, idx);
      LoopStep(Ones, tokens, idx);
      if bit == '1' {
        if idx >= 32 {
          NotFits(tokens, |tokens| - 1 - idx);
          return Err(ShiftOverflow(idx));
        }
        PlaceSet(Zeros, bit, idx, zeros);
        PlaceSet(Ones, bit, idx, ones);
        ones := SetBit(ones, idx);
        zeros := SetBit(zeros, idx);
      } else if bit == '0' {
        if idx >= 32 {
          NotFits(tokens, |tokens| - 1 - idx);
          return Err(ShiftOverflow(idx));
        }
        PlaceSet(Zeros, bit, idx, zeros);
        PlaceSkip(Ones, bit, idx, ones);
        zeros := SetBit(zeros, idx);
      } else {
        PlaceSkip(Zeros, bit, idx, zeros);
        PlaceSkip(Ones, bit, idx, ones);
      }
      idx := idx + 1;
    }
    WholeTail(tokens);
    return Ok(Masks(zeros, ones));
  }

  /** The last n characters of t. */
  function Tail(t: string, n: nat): (r: string)
    requires n <= |t|
    ensures |r| == n
  {
    t[|t| - n..]
  }

  lemma NumeralEmpty(t: string)
    ensures Numeral(Zeros, Tail(t, 0), 0) == 0 && Numeral(Ones, Tail(t, 0), 0) == 0
  {
  }

  lemma WholeTail(t: string)
    requires forall j :: 0 <= j < |t| - 32 ==> !IsLiteral(t[j])
    ensures Tail(t, |t|) == t && Fits(t)
    ensures Compile(t) == Masks(Numeral(Zeros, t, |t|), Numeral(Ones, t, |t|))
  {
  }

  /** `w | (1 << n)` in the source: bit n of w set. */
  function SetBit(w: Word, n: nat): Word
    requires n < 32
  {
    w | (1 << n as bv6)
  }

  lemma PlaceSet(k: Kind, c: char, n: nat, w: Word)
    requires Sets(k, c) && n < 32
    ensures Place(k, c, n, w) == SetBit(w, n)
  {
    PowIsShift(n);
  }

  lemma PlaceSkip(k: Kind, c: char, n: nat, w: Word)
    requires !Sets(k, c)
    ensures Place(k, c, n, w) == w
  {
  }

  lemma NotFits(t: string, j: nat)
    requires j < |t| - 32 && IsLiteral(t[j])
    ensures !Fits(t)
  {
  }

  /** Where the character n places from the right lands in constant k. */
  function Place(k: Kind, c: char, n: nat, w: Word): Word
  {
    if Sets(k, c) then w | Pow(n) else w
  }

  /** One iteration of the loop: the character idx places from the right is placed at bit idx. */
  lemma LoopStep(k: Kind, t: string, idx: nat)
    requires idx < |t|
    ensures Numeral(k, Tail(t, idx + 1), idx + 1) == Place(k, t[|t| - 1 - idx], idx, Numeral(k, Tail(t, idx), idx))
  {
    Prepend(k, t[|t| - 1 - idx], t[|t| - idx..], idx);
    assert t[|t| - 1 - idx..] == [t[|t| - 1 - idx]] + t[|t| - idx..];
  }

  /**
   * Reading one more character on the left of a template adds that
   * character's bit at position n, the length of the rest.  This is what
   * lets the right-to-left loop agree with the left-to-right reading.
   */
  lemma {:induction false} Prepend(k: Kind, c: char, s: string, n: nat)
    requires n <= |s|
    ensures Numeral(k, [c] + s, n + 1) == Place(k, c, n, Numeral(k, s, n))
  {
    hide *;
    if n > 0 {
      Prepend(k, c, s, n - 1);
      NumeralCons(k, c, s, n);
      NumeralLast(k, s, n);
      StepPlace(k, c, s[n - 1], n - 1, Numeral(k, s, n - 1));
    } else {
      NumeralOne(k, c, s);
    }
  }

  lemma NumeralLast(k: Kind, s: string, n: nat)
    requires 0 < n <= |s|
    ensures Numeral(k, s, n) == ShiftIn(Numeral(k, s, n - 1), Sets(k, s[n - 1]))
  {
  }

  lemma NumeralOne(k: Kind, c: char, s: string)
    ensures Numeral(k, [c] + s, 1) == Place(k, c, 0, Numeral(k, s, 0))
  {
  }

  lemma NumeralCons(k: Kind, c: char, s: string, n: nat)
    requires 0 < n <= |s|
    ensures Numeral(k, [c] + s, n + 1) == ShiftIn(Numeral(k, [c] + s, n), Sets(k, s[n - 1]))
  {
    assert ([c] + s)[n] == s[n - 1];
  }

  /** Placing a digit and then shifting in another is shifting first and placing one bit higher. */
  lemma StepPlace(k: Kind, c: char, d: char, n: nat, w: Word)
    ensures ShiftIn(Place(k, c, n, w), Sets(k, d)) == Place(k, c, n + 1, ShiftIn(w, Sets(k, d)))
  {
    hide *;
    if Sets(k, c) {
      PlaceOn(k, c, n, w);
      PlaceOn(k, c, n + 1, ShiftIn(w, Sets(k, d)));
      PowSucc(n);
      ShiftInOr(w, Pow(n), Sets(k, d));
    } else {
      PlaceSkip(k, c, n, w);
      PlaceSkip(k, c, n + 1, ShiftIn(w, Sets(k, d)));
    }
  }

  // Bitwise or and doubling under names of their own, so that the proofs
  // above can combine facts about them without unfolding the arithmetic.

  function Or(a: Word, b: Word): Word
  {
    a | b
  }

  function Double(a: Word): Word
  {
    a << 1
  }

  lemma PlaceOn(k: Kind, c: char, n: nat, w: Word)
    requires Sets(k, c)
    ensures Place(k, c, n, w) == Or(w, Pow(n))
  {
  }

  lemma PowSucc(n: nat)
    ensures Pow(n + 1) == Double(Pow(n))
  {
  }

  lemma ShiftInOr(z: Word, p: Word, b: bool)
    ensures ShiftIn(Or(z, p), b) == Or(ShiftIn(z, b), Double(p))
  {
    hide Digit;
  }

  lemma {:induction false} PowIsShift(k: nat)
    requires k < 32
    ensures Pow(k) == 1 << k as bv6
  {
    if k > 0 {
      PowIsShift(k - 1);
      CastSucc(k);
      ShiftSucc((k - 1) as bv6);
    }
  }

  lemma CastSucc(k: nat)
    requires 0 < k < 32
    ensures (k as bv6) == ((k - 1) as bv6) + 1
  {
  }

  lemma ShiftSucc(x: bv6)
    requires x < 31
    ensures ((1 as Word) << x) << 1 == 1 << (x + 1)
  {
  }

  // ---------------------------------------------------------------------
  // The emitted check and what the constants mean.

  /** Bitwise and under a name of its own, like Or and Double. */
  function And(a: Word, b: Word): Word
  {
    a & b
  }

  /** Bit i of w is set. */
  predicate HasBit(w: Word, i: nat)
  {
    And(w, Pow(i)) != 0
  }

  /**
   * The expression the macro emits, `input & zeros ^ ones == 0`; in Rust `&`
   * binds tighter than `^`, which binds tighter than `==`.
   */
  predicate Matches(input: Word, zeros: Word, ones: Word)
    ensures Matches(input, zeros, ones) <==> input & zeros == ones
  {
    Residue(input, zeros, ones) == 0
  }

  /** The left operand of `== 0` in the emitted check. */
  function Residue(input: Word, zeros: Word, ones: Word): (r: Word)
    ensures r == 0 <==> input & zeros == ones
  {
    XorZero(input & zeros, ones);
    (input & zeros) ^ ones
  }

  /** The check holds exactly when the literal positions of input equal the literal value. */
  lemma MatchesIff(input: Word, zeros: Word, ones: Word)
    ensures Matches(input, zeros, ones) <==> input & zeros == ones
  {
    XorZero(input & zeros, ones);
  }

  lemma XorZero(a: Word, b: Word)
    ensures a ^ b == 0 <==> a == b
  {
  }

  /** Bit i of constant k is set exactly when the character i places from the right sets it. */
  lemma NumeralBit(k: Kind, t: string, i: nat)
    requires i < |t| && i < 32
    ensures HasBit(Numeral(k, t, |t|), i) <==> Sets(k, t[|t| - 1 - i])
  {
    if Sets(k, t[|t| - 1 - i]) {
      DigitSet(k, t, |t|, i);
      PowNonZero(i);
    } else {
      DigitClear(k, t, |t|, i);
    }
  }

  /** Bit i of the zeros constant is set exactly for a '0' or '1' i places from the right. */
  lemma ZerosBit(t: string, i: nat)
    requires i < |t| && i < 32
    ensures HasBit(Compile(t).zeros, i) <==> IsLiteral(t[|t| - 1 - i])
  {
    NumeralBit(Zeros, t, i);
  }

  /** Bit i of the ones constant is set exactly for a '1' i places from the right. */
  lemma OnesBit(t: string, i: nat)
    requires i < |t| && i < 32
    ensures HasBit(Compile(t).ones, i) <==> t[|t| - 1 - i] == '1'
  {
    NumeralBit(Ones, t, i);
  }

  /** Bits above the template's length are clear in both constants. */
  lemma HighBitsClear(k: Kind, t: string, i: nat)
    requires |t| <= i
    ensures !HasBit(Numeral(k, t, |t|), i)
  {
    DigitAbove(k, t, |t|, i);
  }

  lemma {:induction false} DigitSet(k: Kind, t: string, n: nat, i: nat)
    requires i < n <= |t| && Sets(k, t[n - 1 - i])
    ensures And(Numeral(k, t, n), Pow(i)) == Pow(i)
  {
    hide *;
    NumeralLast(k, t, n);
    if i == 0 {
      LowDigit(Numeral(k, t, n - 1), Sets(k, t[n - 1]));
      DigitTrue(Sets(k, t[n - 1]));
    } else {
      DigitSet(k, t, n - 1, i - 1);
      PowSucc(i - 1);
      ShiftedDigit(Numeral(k, t, n - 1), Sets(k, t[n - 1]), Pow(i - 1));
      assert t[n - 1 - i] == t[(n - 1) - 1 - (i - 1)];
    }
  }

  lemma {:induction false} DigitClear(k: Kind, t: string, n: nat, i: nat)
    requires i < n <= |t| && !Sets(k, t[n - 1 - i])
    ensures And(Numeral(k, t, n), Pow(i)) == 0
  {
    hide *;
    NumeralLast(k, t, n);
    if i == 0 {
      LowDigit(Numeral(k, t, n - 1), Sets(k, t[n - 1]));
      DigitFalse(Sets(k, t[n - 1]));
    } else {
      DigitClear(k, t, n - 1, i - 1);
      PowSucc(i - 1);
      ShiftedDigit(Numeral(k, t, n - 1), Sets(k, t[n - 1]), Pow(i - 1));
      DoubleZero();
      assert t[n - 1 - i] == t[(n - 1) - 1 - (i - 1)];
    }
  }

  lemma {:induction false} DigitAbove(k: Kind, t: string, n: nat, i: nat)
    requires n <= i && n <= |t|
    ensures And(Numeral(k, t, n), Pow(i)) == 0
  {
    hide *;
    if n == 0 {
      NumeralZero(k, t);
      AndZero(Pow(i));
    } else {
      NumeralLast(k, t, n);
      DigitAbove(k, t, n - 1, i - 1);
      PowSucc(i - 1);
      ShiftedDigit(Numeral(k, t, n - 1), Sets(k, t[n - 1]), Pow(i - 1));
      DoubleZero();
    }
  }

  lemma NumeralZero(k: Kind, t: string)
    ensures Numeral(k, t, 0) == 0
  {
  }

  lemma LowDigit(w: Word, b: bool)
    ensures And(ShiftIn(w, b), Pow(0)) == Digit(b)
  {
    hide Digit;
    DigitBit(b);
  }

  lemma DigitBit(b: bool)
    ensures Digit(b) & 1 == Digit(b) && Digit(b) & !1 == 0
  {
  }

  lemma DigitTrue(b: bool)
    requires b
    ensures Digit(b) == Pow(0)
  {
  }

  lemma DigitFalse(b: bool)
    requires !b
    ensures Digit(b) == 0
  {
  }

  lemma ShiftedDigit(w: Word, b: bool, p: Word)
    ensures And(ShiftIn(w, b), Double(p)) == Double(And(w, p))
  {
    hide Digit;
    DigitBit(b);
  }

  lemma DoubleZero()
    ensures Double(0) == 0
  {
  }

  lemma AndZero(p: Word)
    ensures And(0, p) == 0
  {
  }

  lemma PowNonZero(i: nat)
    requires i < 32
    ensures Pow(i) != 0
  {
    PowIsShift(i);
  }

  /** Every bit set in the ones constant is set in the zeros constant. */
  lemma OnesWithinZeros(t: string)
    ensures And(Compile(t).ones, Compile(t).zeros) == Compile(t).ones
  {
    OnesWithin(t, |t|);
  }

  lemma {:induction false} OnesWithin(t: string, n: nat)
    requires n <= |t|
    ensures And(Numeral(Ones, t, n), Numeral(Zeros, t, n)) == Numeral(Ones, t, n)
  {
    hide *;
    if n == 0 {
      NumeralZero(Ones, t);
      NumeralZero(Zeros, t);
      AndZero(0);
    } else {
      OnesWithin(t, n - 1);
      NumeralLast(Ones, t, n);
      NumeralLast(Zeros, t, n);
      OneIsLiteral(t[n - 1]);
      ShiftInWithin(Numeral(Ones, t, n - 1), Numeral(Zeros, t, n - 1), Sets(Ones, t[n - 1]), Sets(Zeros, t[n - 1]));
    }
  }

  lemma OneIsLiteral(c: char)
    ensures Sets(Ones, c) ==> Sets(Zeros, c)
  {
  }

  lemma ShiftInWithin(o: Word, z: Word, b: bool, d: bool)
    requires And(o, z) == o && (b ==> d)
    ensures And(ShiftIn(o, b), ShiftIn(z, d)) == ShiftIn(o, b)
  {
    hide *;
    ShiftInIs(o, b);
    ShiftInIs(z, d);
    DigitWithin(b, d);
    ShiftWithin(o, z, Digit(b), Digit(d));
  }

  lemma ShiftInIs(w: Word, b: bool)
    ensures ShiftIn(w, b) == Or(Double(w), Digit(b))
  {
  }

  lemma DigitWithin(b: bool, d: bool)
    requires b ==> d
    ensures And(Digit(b), Digit(d)) == Digit(b)
  {
  }

  lemma ShiftWithin(o: Word, z: Word, x: Word, y: Word)
    requires And(o, z) == o && And(x, y) == x
    ensures And(Or(Double(o), x), Or(Double(z), y)) == Or(Double(o), x)
  {
  }

  /** A template without literals compiles to two zero constants. */
  lemma AllWildcards(t: string)
    requires forall j :: 0 <= j < |t| ==> !IsLiteral(t[j])
    ensures Compile(t) == Masks(0, 0)
  {
    NoLiterals(Zeros, t, |t|);
    NoLiterals(Ones, t, |t|);
  }

  lemma {:induction false} NoLiterals(k: Kind, t: string, n: nat)
    requires n <= |t|
    requires forall j :: 0 <= j < n ==> !IsLiteral(t[j])
    ensures Numeral(k, t, n) == 0
  {
    if n > 0 {
      NoLiterals(k, t, n - 1);
      hide *;
      NumeralLast(k, t, n);
      WildcardUnset(k, t[n - 1]);
      ShiftInZero();
    }
  }

  lemma WildcardUnset(k: Kind, c: char)
    requires !IsLiteral(c)
    ensures !Sets(k, c)
  {
  }

  lemma ShiftInZero()
    ensures ShiftIn(0, false) == 0
  {
  }

  /** ...and the check with those constants accepts every word. */
  lemma AllWildcardsMatch(t: string, input: Word)
    requires forall j :: 0 <= j < |t| ==> !IsLiteral(t[j])
    ensures Matches(input, Compile(t).zeros, Compile(t).ones)
  {
    AllWildcards(t);
    MatchesZero(input);
  }

  lemma MatchesZero(input: Word)
    ensures Matches(input, 0, 0)
  {
  }

  /** Flipping the input bit under a wildcard never changes the outcome of the check. */
  lemma FlipWildcard(t: string, i: nat, input: Word)
    requires i < |t| && i < 32 && !IsLiteral(t[|t| - 1 - i])
    ensures Matches(input ^ Pow(i), Compile(t).zeros, Compile(t).ones) == Matches(input, Compile(t).zeros, Compile(t).ones)
  {
    ZerosBit(t, i);
    FlipOutside(input, Pow(i), Compile(t).zeros, Compile(t).ones);
  }

  lemma FlipOutside(input: Word, p: Word, zeros: Word, ones: Word)
    requires And(zeros, p) == 0
    ensures Matches(input ^ p, zeros, ones) == Matches(input, zeros, ones)
  {
    hide Residue, And;
    XorMasked(input, p, zeros);
    SameResidue(input ^ p, input, zeros, ones);
  }

  lemma XorMasked(input: Word, p: Word, zeros: Word)
    requires And(zeros, p) == 0
    ensures And(input ^ p, zeros) == And(input, zeros)
  {
  }

  lemma SameResidue(a: Word, b: Word, zeros: Word, ones: Word)
    requires And(a, zeros) == And(b, zeros)
    ensures Residue(a, zeros, ones) == Residue(b, zeros, ones)
  {
  }

  // ---------------------------------------------------------------------
  // What the check accepts, position by position.

  /** The character i places from the right of t: the one that governs bit i. */
  function Char(t: string, i: nat): char
    requires i < |t|
  {
    t[|t| - 1 - i]
  }

  /** Every literal position of the template agrees with the input. */
  predicate Agrees(t: string, input: Word)
  {
    forall i :: 0 <= i < |t| && IsLiteral(Char(t, i)) ==> (HasBit(input, i) <==> Char(t, i) == '1')
  }

  lemma LiteralsMatch(t: string, input: Word)
    requires |t| <= 32
    ensures Matches(input, Compile(t).zeros, Compile(t).ones) <==> Agrees(t, input)
  {
    hide Residue;
    var m := Compile(t);
    if Matches(input, m.zeros, m.ones) {
      forall i | 0 <= i < |t| && IsLiteral(Char(t, i))
        ensures HasBit(input, i) <==> Char(t, i) == '1'
      {
        ResidueBit(input, m.zeros, m.ones, i);
        AndZero(Pow(i));
        ZerosBit(t, i);
        OnesBit(t, i);
      }
    }
    if Agrees(t, input) {
      forall i | 0 <= i < 32
        ensures !HasBit(Residue(input, m.zeros, m.ones), i)
      {
        ResidueBit(input, m.zeros, m.ones, i);
        if i < |t| {
          ZerosBit(t, i);
          OnesBit(t, i);
        } else {
          HighBitsClear(Zeros, t, i);
          HighBitsClear(Ones, t, i);
        }
      }
      NoBits(Residue(input, m.zeros, m.ones));
    }
  }

  /** Bit i of the residue is clear when the input agrees with ones under zeros at i. */
  lemma ResidueBit(input: Word, zeros: Word, ones: Word, i: nat)
    requires i < 32
    ensures !HasBit(Residue(input, zeros, ones), i) <==>
      (if HasBit(zeros, i) then HasBit(input, i) == HasBit(ones, i) else !HasBit(ones, i))
  {
    hide Residue, And, Pow;
    PowNonZero(i);
    SingleBit(input, i);
    SingleBit(zeros, i);
    SingleBit(ones, i);
    BitLogic(input, zeros, ones, Pow(i));
  }

  /** And-ing with a power of two keeps either nothing or that one bit. */
  lemma SingleBit(w: Word, i: nat)
    requires i < 32
    ensures And(w, Pow(i)) == 0 || And(w, Pow(i)) == Pow(i)
  {
    PowIsShift(i);
  }

  lemma BitLogic(input: Word, zeros: Word, ones: Word, p: Word)
    requires p != 0
    requires And(input, p) == 0 || And(input, p) == p
    requires And(zeros, p) == 0 || And(zeros, p) == p
    requires And(ones, p) == 0 || And(ones, p) == p
    ensures And(Residue(input, zeros, ones), p) == 0 <==>
      if And(zeros, p) != 0 then (And(input, p) != 0) == (And(ones, p) != 0) else And(ones, p) == 0
  {
    hide *;
    ResidueSplit(input, zeros, ones, p);
    OneBitLogic(And(Residue(input, zeros, ones), p), And(input, p), And(zeros, p), And(ones, p), p);
  }

  /** Bitwise exclusive or under a name of its own. */
  function Xor(a: Word, b: Word): Word
  {
    a ^ b
  }

  lemma ResidueSplit(input: Word, zeros: Word, ones: Word, p: Word)
    ensures And(Residue(input, zeros, ones), p) == Xor(And(And(input, p), And(zeros, p)), And(ones, p))
  {
  }

  lemma OneBitLogic(r: Word, a: Word, z: Word, o: Word, p: Word)
    requires p != 0 && (a == 0 || a == p) && (z == 0 || z == p) && (o == 0 || o == p)
    requires r == Xor(And(a, z), o)
    ensures r == 0 <==> if z != 0 then (a != 0) == (o != 0) else o == 0
  {
  }

  /** A word with no bit set is zero. */
  lemma NoBits(w: Word)
    requires forall i :: 0 <= i < 32 ==> !HasBit(w, i)
    ensures w == 0
  {
    ClearBelow(w, 32);
    LowAll();
  }

  /** The mask of the low n bits, built one bit at a time. */
  function Low(n: nat): Word
  {
    if n == 0 then 0 else Or(Low(n - 1), Pow(n - 1))
  }

  lemma {:induction false} ClearBelow(w: Word, n: nat)
    requires n <= 32
    requires forall i :: 0 <= i < n ==> !HasBit(w, i)
    ensures And(w, Low(n)) == 0
  {
    if n > 0 {
      ClearBelow(w, n - 1);
      assert !HasBit(w, n - 1);
      hide *;
      AndOrZero(w, Low(n - 1), Pow(n - 1));
    }
  }

  lemma AndOrZero(w: Word, a: Word, b: Word)
    requires And(w, a) == 0 && And(w, b) == 0
    ensures And(w, Or(a, b)) == 0
  {
  }

  lemma LowAll()
    ensures Low(32) == 0xFFFF_FFFF
  {
    hide Low, Pow;
    LowSucc(31);
    LowIs(31);
    PowIsShift(31);
  }

  lemma LowSucc(n: nat)
    ensures Low(n + 1) == Or(Low(n), Pow(n))
  {
  }

  lemma {:induction false} LowIs(n: nat)
    requires n < 32
    ensures Low(n) == Pow(n) - 1
  {
    if n > 0 {
      LowIs(n - 1);
      PowIsShift(n - 1);
      PowSucc(n - 1);
      hide *;
      LowStep(Pow(n - 1), (n - 1) as bv6);
    }
  }

  lemma LowStep(p: Word, s: bv6)
    requires s < 31 && p == 1 << s
    ensures Or(p - 1, p) == Double(p) - 1
  {
  }

  // ---------------------------------------------------------------------
  // Working out the constants of a concrete template from its parts.

  /** w shifted left by m places, one place at a time. */
  function Shl(w: Word, m: nat): Word
  {
    if m == 0 then w else Double(Shl(w, m - 1))
  }

  /** A run of n wildcard characters. */
  function Wild(n: nat): (r: string)
    ensures |r| == n
    ensures forall j :: 0 <= j < n ==> !IsLiteral(r[j])
  {
    seq(n, _ => 'x')
  }

  /** The constants of a run of wildcards are both zero. */
  lemma WildCompile(n: nat)
    ensures Compile(Wild(n)) == Masks(0, 0)
  {
    AllWildcards(Wild(n));
  }

  /**
   * The constants of a template made of two parts: those of the left part
   * shifted past the right part, or-ed with those of the right part.
   */
  lemma JoinCompile(a: string, b: string)
    requires |b| < 32
    ensures Compile(a + b) ==
      Masks(Or(Shl(Compile(a).zeros, |b|), Compile(b).zeros), Or(Shl(Compile(a).ones, |b|), Compile(b).ones))
  {
    JoinUpTo(Zeros, a, b, |b|);
    JoinUpTo(Ones, a, b, |b|);
  }

  lemma {:induction false} JoinUpTo(k: Kind, a: string, b: string, n: nat)
    requires n <= |b| < 32
    ensures Numeral(k, a + b, |a| + n) == Or(Shl(Numeral(k, a, |a|), n), Numeral(k, b, n))
  {
    if n == 0 {
      Prefix(k, a, b, |a|);
      NumeralZero(k, b);
      hide *;
      ShlZero(Numeral(k, a, |a|));
      OrZero(Numeral(k, a, |a|));
    } else {
      JoinUpTo(k, a, b, n - 1);
      NumeralLast(k, a + b, |a| + n);
      assert (a + b)[|a| + n - 1] == b[n - 1];
      NumeralLast(k, b, n);
      hide *;
      ShiftInOrLeft(Shl(Numeral(k, a, |a|), n - 1), Numeral(k, b, n - 1), Sets(k, b[n - 1]));
      ShlSucc(Numeral(k, a, |a|), n - 1);
    }
  }

  lemma {:induction false} Prefix(k: Kind, a: string, b: string, n: nat)
    requires n <= |a|
    ensures Numeral(k, a + b, n) == Numeral(k, a, n)
  {
    if n > 0 {
      Prefix(k, a, b, n - 1);
      assert (a + b)[n - 1] == a[n - 1];
    }
  }

  lemma ShlZero(w: Word)
    ensures Shl(w, 0) == w
  {
  }

  lemma ShlSucc(w: Word, m: nat)
    ensures Double(Shl(w, m)) == Shl(w, m + 1)
  {
  }

  lemma OrZero(w: Word)
    ensures Or(w, 0) == w
  {
  }

  lemma ShiftInOrLeft(x: Word, y: Word, b: bool)
    ensures ShiftIn(Or(x, y), b) == Or(Double(x), ShiftIn(y, b))
  {
    hide Digit;
  }
}
