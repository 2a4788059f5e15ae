/** The results of the ALU as integers: sums, shifts, comparisons, divisions and branch conditions on the signed and
    unsigned values of the operands. */
module AluMeaning {
  import opened FlatMemory
  import opened Arith
  import opened Alu

  // ----- a word is twice its upper 31 bits plus its lowest bit

  function Half(w: word): word { w >> 1 }
  predicate Odd(w: word) { w & 1 != 0 }
  function Twice(h: word): word { h << 1 }
  function TwicePlusOne(h: word): word { (h << 1) | 1 }
  predicate Small(h: word) { h & 0x8000_0000 == 0 }

  lemma HalfIsSmall(w: word)
    ensures Small(Half(w))
  {
  }

  lemma Rejoined(w: word)
    ensures !Odd(w) ==> w == Twice(Half(w))
    ensures Odd(w) ==> w == TwicePlusOne(Half(w))
  {
  }

  lemma Split(h: word)
    requires Small(h)
    ensures Half(Twice(h)) == h && !Odd(Twice(h))
    ensures Half(TwicePlusOne(h)) == h && Odd(TwicePlusOne(h))
  {
  }

  lemma TwiceValue(h: word)
    requires Small(h)
    ensures Value(Twice(h)) == 2 * Value(h)
  {
    Doubled(h);
  }

  lemma TwicePlusOneValue(h: word)
    requires Small(h)
    ensures Value(TwicePlusOne(h)) == 2 * Value(h) + 1
  {
    DoubledPlusOne(h);
  }

  lemma Halves(w: word)
    ensures Value(w) == 2 * Value(Half(w)) + if Odd(w) then 1 else 0
  {
    hide Half, Odd, Twice, TwicePlusOne, Small, Value;
    HalfIsSmall(w);
    Rejoined(w);
    if Odd(w) {
      TwicePlusOneValue(Half(w));
    } else {
      TwiceValue(Half(w));
    }
  }

  // ----- order

  predicate Below(a: word, b: word) { a < b }

  lemma BelowByHalf(a: word, b: word)
    requires Below(Half(a), Half(b))
    ensures Below(a, b) && !Below(b, a)
  {
  }

  lemma TwiceBelow(h: word)
    ensures Below(Twice(h), TwicePlusOne(h))
  {
  }

  lemma Irreflexive(a: word, b: word)
    requires Below(a, b)
    ensures !Below(b, a) && a != b
  {
  }

  lemma BelowByLowBit(a: word, b: word)
    requires Half(a) == Half(b)
    ensures Below(a, b) <==> !Odd(a) && Odd(b)
  {
    hide Below, Half, Odd, Twice, TwicePlusOne;
    Rejoined(a);
    Rejoined(b);
    TwiceBelow(Half(a));
    Irreflexive(Twice(Half(a)), TwicePlusOne(Half(a)));
    if Below(a, b) {
      Irreflexive(a, b);
    }
  }

  lemma NotBelowZero(a: word)
    ensures !Below(a, 0) && (a != 0 ==> Below(0, a))
  {
  }

  lemma {:induction false} BelowOnValues(a: word, b: word)
    ensures Below(a, b) <==> Value(a) < Value(b)
    decreases Value(a) + Value(b)
  {
    hide Half, Odd, Value, Below;
    ZeroValue(a);
    ZeroValue(b);
    if a == 0 {
      NotBelowZero(b);
    } else if b == 0 {
      NotBelowZero(a);
    } else {
      Halves(a);
      Halves(b);
      Distinct(Half(a), Half(b));
      if Value(Half(a)) < Value(Half(b)) {
        BelowOnValues(Half(a), Half(b));
        BelowByHalf(a, b);
      } else if Value(Half(b)) < Value(Half(a)) {
        BelowOnValues(Half(b), Half(a));
        BelowByHalf(b, a);
      } else {
        BelowByLowBit(a, b);
      }
    }
  }

  lemma Distinct(a: word, b: word)
    ensures a == b <==> Value(a) == Value(b)
  {
    hide Value;
    Converted(a);
    Converted(b);
  }

  // ----- sums

  function Sum(a: word, b: word): word { a + b }

  lemma SuccessorHalves(w: word)
    ensures !Odd(w) ==> Sum(w, 1) == TwicePlusOne(Half(w))
    ensures Odd(w) ==> Sum(w, 1) == Twice(Sum(Half(w), 1))
  {
  }

  lemma {:induction false} Successor(w: word)
    requires Value(w) < TWO32 - 1
    ensures Value(Sum(w, 1)) == Value(w) + 1
    decreases Value(w)
  {
    hide Half, Odd, Twice, TwicePlusOne, Small, Value, Sum;
    Halves(w);
    HalfIsSmall(w);
    SuccessorHalves(w);
    if Odd(w) {
      Successor(Half(w));
      SmallOnValues(Sum(Half(w), 1));
      TwiceValue(Sum(Half(w), 1));
    } else {
      TwicePlusOneValue(Half(w));
    }
  }

  lemma SmallIsBelow(w: word)
    ensures Small(w) <==> Below(w, 0x8000_0000)
  {
  }

  lemma TopValue()
    ensures Value(0x8000_0000) == 0x8000_0000
  {
  }

  lemma SmallOnValues(w: word)
    ensures Small(w) <==> Value(w) < 0x8000_0000
  {
    hide Small, Value, Below;
    SmallIsBelow(w);
    TopValue();
    BelowOnValues(w, 0x8000_0000);
  }

  lemma Largest(w: word)
    requires Value(w) == TWO32 - 1
    ensures Sum(w, 1) == 0
  {
    hide Value;
    Distinct(w, 0xFFFF_FFFF);
    assert Value(0xFFFF_FFFF) == TWO32 - 1 by { LargestValue(); }
  }

  lemma LargestValue()
    ensures Value(0xFFFF_FFFF) == TWO32 - 1
  {
  }

  lemma SumStep(a: word, b: word)
    ensures Sum(a, b) == Sum(Sum(a, b - 1), 1) && Sum(b - 1, 1) == b
  {
  }

  lemma {:induction false} Increment(w: word)
    ensures Value(Sum(w, 1)) == Wrap(Value(w) + 1)
  {
    hide Value, Sum;
    if Value(w) == TWO32 - 1 {
      Largest(w);
      ZeroValue(0);
    } else {
      Successor(w);
    }
  }

  lemma SumZero(a: word)
    ensures Sum(a, 0) == a
  {
  }

  /** Adding words adds their values modulo 2^32. */
  lemma {:induction false} SumOnValues(a: word, b: word)
    ensures Value(Sum(a, b)) == Wrap(Value(a) + Value(b))
    decreases Value(b)
  {
    hide Value, Sum;
    ZeroValue(b);
    if b == 0 {
      SumZero(a);
    } else {
      SumStep(a, b);
      Increment(b - 1);
      ZeroValue(0);
      SumOnValues(a, b - 1);
      Increment(Sum(a, b - 1));
    }
  }

  lemma DifferenceOnValues(a: word, b: word)
    ensures Value(a - b) == Wrap(Value(a) - Value(b))
  {
    hide Value;
    Cancelled(a, b);
    SumOnValues(a - b, b);
    WrapBack(Value(a - b), Value(b), Value(a));
  }

  lemma Cancelled(a: word, b: word)
    ensures Sum(a - b, b) == a
  {
  }

  lemma WrapBack(d: u32, b: u32, a: u32)
    requires a == Wrap(d + b)
    ensures d == Wrap(a - b)
  {
  }

  // ----- shifts

  function Pow2(n: nat): nat
    ensures Pow2(n) > 0
  {
    if n == 0 then 1 else 2 * Pow2(n - 1)
  }

  lemma ShiftRightStep(w: word, n: word)
    requires 0 < n < 32
    ensures ShiftRight(w, n) == Half(ShiftRight(w, n - 1))
  {
  }

  lemma ShiftLeftStep(w: word, n: word)
    requires 0 < n < 32
    ensures ShiftLeft(w, n) == Twice(ShiftLeft(w, n - 1))
  {
  }

  lemma Predecessor(n: word)
    requires 0 < n < 32
    ensures Value(n - 1) == Value(n) - 1
  {
  }

  lemma ShiftZero(w: word)
    ensures ShiftRight(w, 0) == w && ShiftLeft(w, 0) == w && ShiftRightArithmetic(w, 0) == w
  {
  }

  lemma TwiceWraps(w: word)
    ensures Value(Twice(w)) == Wrap(2 * Value(w))
  {
  }

  lemma HalfOfQuotient(x: int, p: nat)
    requires p > 0
    ensures x / p / 2 == x / (2 * p)
  {
    var q, r := x / p, x % p;
    assert x == (2 * p) * (q / 2) + (p * (q % 2) + r);
    if q % 2 == 0 {
      QuotientIs(x, 2 * p, q / 2, r);
    } else {
      QuotientIs(x, 2 * p, q / 2, p + r);
    }
  }

  lemma QuotientIs(x: int, d: nat, q: int, r: int)
    requires d > 0 && x == d * q + r && 0 <= r < d
    ensures x / d == q
  {
    var k := x / d - q;
    assert d * k == r - x % d;
    NoMultipleBetween(d, k);
  }

  lemma NoMultipleBetween(d: int, k: int)
    requires d > 0 && -d < d * k < d
    ensures k == 0
  {
  }

  /** srl divides by a power of two. */
  lemma {:induction false} ShiftRightDivides(w: word, n: word)
    requires n < 32
    ensures Value(ShiftRight(w, n)) == Value(w) / Pow2(Value(n))
    decreases Value(n)
  {
    hide Value, ShiftRight, Half;
    ZeroValue(n);
    if n == 0 {
      ShiftZero(w);
    } else {
      Predecessor(n);
      ShiftRightStep(w, n);
      ShiftRightDivides(w, n - 1);
      Halves(ShiftRight(w, n - 1));
      HalfOfQuotient(Value(w), Pow2(Value(n - 1)));
    }
  }

  lemma DoubleWrap(x: int)
    ensures Wrap(2 * Wrap(x)) == Wrap(2 * x)
  {
    var q := x / TWO32;
    assert 2 * x == 2 * Wrap(x) + (2 * q) * TWO32;
    WrapPeriodic(2 * Wrap(x), 2 * q);
  }

  /** sll multiplies by a power of two, modulo 2^32. */
  lemma {:induction false} ShiftLeftMultiplies(w: word, n: word)
    requires n < 32
    ensures Value(ShiftLeft(w, n)) == Wrap(Value(w) * Pow2(Value(n)))
    decreases Value(n)
  {
    hide Value, ShiftLeft, Twice, Wrap;
    ZeroValue(n);
    if n == 0 {
      ShiftZero(w);
      WrapSmall(Value(w));
    } else {
      Predecessor(n);
      ShiftLeftStep(w, n);
      ShiftLeftMultiplies(w, n - 1);
      TwiceWraps(ShiftLeft(w, n - 1));
      DoubleWrap(Value(w) * Pow2(Value(n - 1)));
      assert 2 * (Value(w) * Pow2(Value(n - 1))) == Value(w) * Pow2(Value(n));
    }
  }

  /** The sign is kept in the top bit. */
  function HalfSigned(w: word): word { if Small(w) then Half(w) else WithTop(Half(w)) }

  function WithTop(h: word): word { h | 0x8000_0000 }

  lemma WithTopValue(h: word)
    requires Small(h)
    ensures Value(WithTop(h)) == Value(h) + 0x8000_0000
  {
  }

  lemma ArithmeticStepPositive(w: word, n: word)
    requires 0 < n < 32 && w < 0x8000_0000
    ensures ShiftRightArithmetic(w, n) == HalfSigned(ShiftRightArithmetic(w, n - 1))
  {
  }

  lemma ArithmeticStepNegative(w: word, n: word)
    requires 0 < n < 32 && w >= 0x8000_0000
    ensures ShiftRightArithmetic(w, n) == HalfSigned(ShiftRightArithmetic(w, n - 1))
  {
  }

  lemma HalfSignedValue(w: word)
    ensures Signed(HalfSigned(w)) == Signed(w) / 2
  {
    hide Value, Half, Small, WithTop;
    Halves(w);
    HalfIsSmall(w);
    SmallOnValues(w);
    SmallOnValues(Half(w));
    if !Small(w) {
      WithTopValue(Half(w));
    }
  }

  /** sra divides the signed value by a power of two, rounding down. */
  lemma {:induction false} ShiftArithmeticDivides(w: word, n: word)
    requires n < 32
    ensures Signed(ShiftRightArithmetic(w, n)) == Signed(w) / Pow2(Value(n))
    decreases Value(n)
  {
    hide Value, Signed, ShiftRightArithmetic, HalfSigned;
    ZeroValue(n);
    if n == 0 {
      ShiftZero(w);
    } else {
      Predecessor(n);
      if w < 0x8000_0000 {
        ArithmeticStepPositive(w, n);
      } else {
        ArithmeticStepNegative(w, n);
      }
      ShiftArithmeticDivides(w, n - 1);
      HalfSignedValue(ShiftRightArithmetic(w, n - 1));
      HalfOfQuotient(Signed(w), Pow2(Value(n - 1)));
    }
  }

  // ----- single bits

  /** Bit i of a word, as a digit of its value. */
  predicate Bit(w: word, i: nat) { Value(w) / Pow2(i) % 2 == 1 }

  lemma BitZero(w: word)
    ensures Bit(w, 0) <==> Odd(w)
  {
    hide Value, Odd;
    Halves(w);
    assert Pow2(0) == 1;
  }

  lemma BitAbove(w: word, i: nat)
    requires i > 0
    ensures Bit(w, i) <==> Bit(Half(w), i - 1)
  {
    hide Value, Odd, Half;
    Halves(w);
    var h, p := Value(Half(w)), Pow2(i - 1);
    assert h == p * (h / p) + h % p;
    assert Pow2(i) == 2 * p;
    QuotientIs(Value(w), 2 * p, h / p, 2 * (h % p) + if Odd(w) then 1 else 0);
  }

  function Or2(a: word, b: word): word { a | b }
  function And2(a: word, b: word): word { a & b }
  function Xor2(a: word, b: word): word { a ^ b }

  lemma HalfOfOr(a: word, b: word)
    ensures Half(Or2(a, b)) == Or2(Half(a), Half(b))
  {
  }

  lemma HalfOfAnd(a: word, b: word)
    ensures Half(And2(a, b)) == And2(Half(a), Half(b))
  {
  }

  lemma HalfOfXor(a: word, b: word)
    ensures Half(Xor2(a, b)) == Xor2(Half(a), Half(b))
  {
  }

  lemma LowBitOfBitwise(a: word, b: word)
    ensures Odd(Or2(a, b)) <==> Odd(a) || Odd(b)
    ensures Odd(And2(a, b)) <==> Odd(a) && Odd(b)
    ensures Odd(Xor2(a, b)) <==> Odd(a) != Odd(b)
  {
  }

  lemma {:induction false} Bitwise(a: word, b: word, i: nat)
    ensures Bit(Or2(a, b), i) <==> Bit(a, i) || Bit(b, i)
    ensures Bit(And2(a, b), i) <==> Bit(a, i) && Bit(b, i)
    ensures Bit(Xor2(a, b), i) <==> Bit(a, i) != Bit(b, i)
    decreases i
  {
    hide Bit, Half, Odd, Or2, And2, Xor2;
    if i == 0 {
      BitZero(a);
      BitZero(b);
      BitZero(Or2(a, b));
      BitZero(And2(a, b));
      BitZero(Xor2(a, b));
      LowBitOfBitwise(a, b);
    } else {
      BitAbove(a, i);
      BitAbove(b, i);
      BitAbove(Or2(a, b), i);
      BitAbove(And2(a, b), i);
      BitAbove(Xor2(a, b), i);
      HalfOfOr(a, b);
      HalfOfAnd(a, b);
      HalfOfXor(a, b);
      Bitwise(Half(a), Half(b), i - 1);
    }
  }

  // ----- the operations of do_alu

  /** The sums modulo 2^32. */
  lemma SumsOnValues(a: word, b: word)
    ensures Value(DoAlu(Add, a, b)) == Wrap(Value(a) + Value(b))
    ensures Value(DoAlu(Auipc, a, b)) == Wrap(Value(a) + Value(b))
    ensures Value(DoAlu(Jal, a, b)) == Wrap(Value(a) + Value(b))
  {
    hide Value, Wrap;
    assert a + b == Sum(a, b);
    SumOnValues(a, b);
  }

  /** The difference modulo 2^32, and the target of jalr, with its low bit cleared. */
  lemma DifferenceAndTarget(a: word, b: word)
    ensures Value(DoAlu(Sub, a, b)) == Wrap(Value(a) - Value(b))
    ensures Value(DoAlu(Jalr, a, b)) == Wrap(Value(a) + Value(b)) / 2 * 2
  {
    hide Value, Wrap, Even;
    assert a + b == Sum(a, b);
    SumOnValues(a, b);
    DifferenceOnValues(a, b);
    EvenValue(Sum(a, b));
  }

  lemma EvenIsTwiceHalf(w: word)
    ensures Even(w) == Twice(Half(w))
  {
  }

  lemma EvenValue(w: word)
    ensures Value(Even(w)) == Value(w) / 2 * 2
  {
    hide Value, Even, Half, Twice, Odd, Small;
    EvenIsTwiceHalf(w);
    HalfIsSmall(w);
    Halves(w);
    TwiceValue(Half(w));
  }

  lemma BitwiseResults(a: word, b: word)
    ensures DoAlu(Or, a, b) == Or2(a, b) && DoAlu(And, a, b) == And2(a, b) && DoAlu(Xor, a, b) == Xor2(a, b)
  {
  }

  /** The logical operations, bit by bit. */
  lemma BitwiseOnBits(a: word, b: word, i: nat)
    ensures Bit(DoAlu(Or, a, b), i) <==> Bit(a, i) || Bit(b, i)
    ensures Bit(DoAlu(And, a, b), i) <==> Bit(a, i) && Bit(b, i)
    ensures Bit(DoAlu(Xor, a, b), i) <==> Bit(a, i) != Bit(b, i)
  {
    hide Bit, DoAlu, Or2, And2, Xor2;
    BitwiseResults(a, b);
    Bitwise(a, b, i);
  }

  /** The shifts multiply and divide by powers of two; sra divides the signed value, rounding down. */
  lemma ShiftsOnValues(a: word, n: word)
    requires n < 32
    ensures Value(DoAlu(Sll, a, n)) == Wrap(Value(a) * Pow2(Value(n)))
    ensures Value(DoAlu(Srl, a, n)) == Value(a) / Pow2(Value(n))
    ensures Signed(DoAlu(Sra, a, n)) == Signed(a) / Pow2(Value(n))
  {
    hide Value, Signed, Wrap, ShiftLeft, ShiftRight, ShiftRightArithmetic;
    ShiftLeftMultiplies(a, n);
    ShiftRightDivides(a, n);
    ShiftArithmeticDivides(a, n);
  }

  /** The comparisons leave one or zero. */
  lemma ComparisonsOnValues(a: word, b: word)
    ensures Value(DoAlu(Slt, a, b)) == if Signed(a) < Signed(b) then 1 else 0
    ensures Value(DoAlu(Sltu, a, b)) == if Value(a) < Value(b) then 1 else 0
  {
    BelowOnValues(a, b);
    OneValue();
  }

  lemma OneValue()
    ensures Value(0) == 0 && Value(1) == 1
  {
  }

  /** Unsigned quotient and remainder: the exact identity with a remainder below the divisor, and for a zero divisor
      all ones and the dividend. */
  lemma UnsignedDivision(a: word, b: word)
    ensures var q, r := Value(DoAlu(DivU, a, b)), Value(DoAlu(RemU, a, b));
      if Value(b) == 0 then q == TWO32 - 1 && r == Value(a)
      else Value(a) == Value(b) * q + r && r < Value(b)
  {
    hide Value, Word, Wrap, Divu, Remu;
    ValueOfWord(Divu(Value(a), Value(b)));
    WrapSmall(Divu(Value(a), Value(b)));
    ValueOfWord(Remu(Value(a), Value(b)));
    WrapSmall(Remu(Value(a), Value(b)));
    DivisionByZero(Value(a));
    if Value(b) != 0 {
      ExactDivision(Value(a), Value(b));
    }
  }

  lemma DivisionByZero(a: u32)
    ensures Divu(a, 0) == TWO32 - 1 && Remu(a, 0) == a
    ensures Div(ToSigned(a), 0) == -1 && Rem(ToSigned(a), 0) == ToSigned(a)
  {
  }

  /** Signed quotient and remainder: the exact identity with a remainder smaller than the divisor and with the sign
      of the dividend; for a zero divisor minus one and the dividend; and on overflow the dividend and zero. */
  lemma SignedDivision(a: word, b: word)
    ensures var x, y, q, r := Signed(a), Signed(b), Signed(DoAlu(DivS, a, b)), Signed(DoAlu(RemS, a, b));
      if y == 0 then q == -1 && r == x
      else if x == -0x8000_0000 && y == -1 then q == x && r == 0
      else x == y * q + r && Abs(r) < Abs(y) && (r == 0 || (r < 0 <==> x < 0))
  {
    hide Value, Word, Wrap, Div, Rem;
    SignedOfWord(Div(Signed(a), Signed(b)));
    SignedOfWord(Rem(Signed(a), Signed(b)));
    DivisionByZero(Value(a));
    DivisionOverflow();
    if Value(b) != 0 {
      ExactDivision(Value(a), Value(b));
    }
  }

  lemma DivisionOverflow()
    ensures Div(-0x8000_0000, -1) == -0x8000_0000 && Rem(-0x8000_0000, -1) == 0
  {
  }
}
