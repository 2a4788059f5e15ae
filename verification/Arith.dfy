/** RV32M arithmetic on mathematical integers: high multiplication from 16-bit halves, its signed forms by
    complementing, and division with the RISC-V corner cases. */
module Arith {
  type u16 = x: int | 0 <= x < 0x1_0000
  type u32 = x: int | 0 <= x < 0x1_0000_0000
  type i32 = x: int | -0x8000_0000 <= x < 0x8000_0000

  const TWO32: int := 0x1_0000_0000

  function Wrap(x: int): u32 { x % TWO32 }

  /** static_cast<int32_t> of a uint32_t. */
  function ToSigned(x: u32): (r: i32)
    ensures Wrap(r) == x
  {
    if x < 0x8000_0000 then x else x - TWO32
  }

  /** The upper word of a product. */
  function High(product: int): int { product / TWO32 }

  /** mulhu: every intermediate is a uint32_t variable, so the typing proves that none of them wraps. */
  method Mulhu(a: u32, b: u32) returns (r: u32)
    ensures r == High(a * b)
  {
    var a0: u32, a1: u32 := a % 0x1_0000, a / 0x1_0000;
    var b0: u32, b1: u32 := b % 0x1_0000, b / 0x1_0000;
    HalfProducts(a0, a1, b0, b1);
    var t: u32 := a1 * b0 + a0 * b0 / 0x1_0000;
    var y1: u16 := t % 0x1_0000;
    var y2: u16 := t / 0x1_0000;
    t := a0 * b1 + y1;
    t := a1 * b1 + y2 + t / 0x1_0000;
    y2 := t % 0x1_0000;
    var y3: u16 := t / 0x1_0000;
    r := y3 * 0x1_0000 + y2;
    SchoolbookHigh(a0, a1, b0, b1);
  }

  lemma HalfProducts(a0: u16, a1: u16, b0: u16, b1: u16)
    ensures 0 <= a0 * b0 <= 0xFFFF * 0xFFFF && 0 <= a1 * b0 <= 0xFFFF * 0xFFFF
    ensures 0 <= a0 * b1 <= 0xFFFF * 0xFFFF && 0 <= a1 * b1 <= 0xFFFF * 0xFFFF
  {
    Bound(a0, b0);
    Bound(a1, b0);
    Bound(a0, b1);
    Bound(a1, b1);
  }

  lemma Bound(x: u16, y: u16)
    ensures 0 <= x * y <= 0xFFFF * 0xFFFF
  {
    MulMonotone(x, 0xFFFF, y);
  }

  lemma MulMonotone(x: nat, bound: nat, y: nat)
    requires x <= bound
    ensures 0 <= x * y <= bound * y
  {
  }

  lemma SchoolbookHigh(a0: u16, a1: u16, b0: u16, b1: u16)
    ensures var t1 := a1 * b0 + a0 * b0 / 0x1_0000;
            var t2 := a0 * b1 + t1 % 0x1_0000;
            a1 * b1 + t1 / 0x1_0000 + t2 / 0x1_0000 == High((a1 * 0x1_0000 + a0) * (b1 * 0x1_0000 + b0))
  {
    HalfProducts(a0, a1, b0, b1);
    Expand(a1, a0, b1, b0);
    HighOfParts(a0 * b0, a1 * b0, a0 * b1, a1 * b1);
  }

  lemma Expand(a1: int, a0: int, b1: int, b0: int)
    ensures (a1 * 0x1_0000 + a0) * (b1 * 0x1_0000 + b0)
         == (a1 * b1) * 0x1_0000_0000 + (a1 * b0 + a0 * b1) * 0x1_0000 + a0 * b0
  {
    var y := b1 * 0x1_0000 + b0;
    assert (a1 * 0x1_0000 + a0) * y == 0x1_0000 * (a1 * y) + a0 * y;
    assert a1 * y == (a1 * b1) * 0x1_0000 + a1 * b0;
    assert a0 * y == (a0 * b1) * 0x1_0000 + a0 * b0;
  }

  lemma HighOfParts(p00: nat, p10: nat, p01: nat, p11: nat)
    ensures var t1 := p10 + p00 / 0x1_0000;
            var t2 := p01 + t1 % 0x1_0000;
            p11 + t1 / 0x1_0000 + t2 / 0x1_0000 == High(p11 * 0x1_0000_0000 + (p10 + p01) * 0x1_0000 + p00)
  {
  }

  // ----- signed and mixed high products

  /** -x on int32_t, wrapping at -2^31, then cast to uint32_t: the magnitude of x. */
  function Magnitude(x: i32): (r: u32)
    ensures r == Abs(x)
  {
    var n: int := x;
    if n < 0 then Wrap(-n) else n
  }

  /** ~res + (low word of the product is zero): the complement trick of mulh and mulhsu. */
  function ComplementHigh(res: u32, low: u32): u32 {
    Wrap(TWO32 - 1 - res + if low == 0 then 1 else 0)
  }

  /** The complement trick is exact: it turns the upper word of p into the upper word of -p. */
  lemma ComplementIsNegation(p: int, low: u32)
    requires 0 <= p <= 0x8000_0000 * TWO32
    requires low == Wrap(-p)
    ensures High(p) <= 0x8000_0000
    ensures ToSigned(ComplementHigh(High(p), low)) == High(-p)
  {
  }

  lemma SignedProduct(a: i32, b: i32)
    ensures 0 <= Magnitude(a) * Magnitude(b) <= 0x8000_0000 * 0x8000_0000
    ensures a * b == if (a < 0) != (b < 0) then -(Magnitude(a) * Magnitude(b)) else Magnitude(a) * Magnitude(b)
  {
    MulMonotone(Magnitude(a), 0x8000_0000, Magnitude(b));
  }

  lemma MixedProduct(a: i32, b: u32)
    ensures 0 <= Magnitude(a) * b <= 0x8000_0000 * TWO32
    ensures a * b == if a < 0 then -(Magnitude(a) * b) else Magnitude(a) * b
    ensures a >= 0 ==> Magnitude(a) * b <= 0x7FFF_FFFF * (TWO32 - 1)
    ensures Wrap(Wrap(a) * b) == Wrap(a * b)
  {
    if a < 0 {
      MulMonotone(Magnitude(a), 0x8000_0000, b);
      assert (a + TWO32) * b == a * b + b * TWO32;
      WrapPeriodic(a * b, b);
    } else {
      MulMonotone(a, 0x7FFF_FFFF, b);
    }
  }

  lemma WrapPeriodic(x: int, k: int)
    ensures Wrap(x + k * TWO32) == Wrap(x)
  {
  }

  function MulhuSpec(a: u32, b: u32): (r: u32)
    ensures r == High(a * b)
  {
    MulMonotone(a, TWO32 - 1, b);
    High(a * b)
  }

  function Mulh(a: i32, b: i32): (r: i32)
    ensures r == High(a * b)
  {
    SignedProduct(a, b);
    var res := MulhuSpec(Magnitude(a), Magnitude(b));
    if (a < 0) != (b < 0) then
      ComplementIsNegation(Magnitude(a) * Magnitude(b), Wrap(a * b));
      ToSigned(ComplementHigh(res, Wrap(a * b)))
    else
      ToSigned(res)
  }

  function Mulhsu(a: i32, b: u32): (r: i32)
    ensures r == High(a * b)
  {
    MixedProduct(a, b);
    var res := MulhuSpec(Magnitude(a), b);
    if a < 0 then
      ComplementIsNegation(Magnitude(a) * b, Wrap(Wrap(a) * b));
      ToSigned(ComplementHigh(res, Wrap(Wrap(a) * b)))
    else
      ToSigned(res)
  }

  /** Joined with the low word, each high word gives the full 64-bit product. */
  lemma FullProduct(a: u32, b: u32)
    ensures MulhuSpec(a, b) * TWO32 + Wrap(a * b) == a * b
    ensures var x, y := ToSigned(a), ToSigned(b);
            && Mulh(x, y) * TWO32 + Wrap(a * b) == x * y
            && Mulhsu(x, b) * TWO32 + Wrap(a * b) == x * b
  {
    LowWordOfProduct(a, b);
  }

  /** The low word does not depend on how the operands are read. */
  lemma LowWordOfProduct(a: u32, b: u32)
    ensures Wrap(ToSigned(a) * ToSigned(b)) == Wrap(a * b)
    ensures Wrap(ToSigned(a) * b) == Wrap(a * b)
  {
    var x, y := ToSigned(a), ToSigned(b);
    var j, k := (if a < 0x8000_0000 then 0 else 1), (if b < 0x8000_0000 then 0 else 1);
    assert a == x + j * TWO32 && b == y + k * TWO32;
    assert a * b == x * b + (j * b) * TWO32;
    assert x * b == x * y + (k * x) * TWO32;
    WrapPeriodic(x * b, j * b);
    WrapPeriodic(x * y, k * x);
  }

  // ----- division

  /** C++ division truncates toward zero. */
  function TruncDiv(x: int, y: int): int
    requires y != 0
  {
    var q := Abs(x) / Abs(y);
    if (x < 0) != (y < 0) then -q else q
  }

  function TruncRem(x: int, y: int): int
    requires y != 0
  {
    x - y * TruncDiv(x, y)
  }

  function Abs(x: int): nat { if x < 0 then -x else x }

  function Divu(a: u32, b: u32): u32 {
    if b == 0 then TWO32 - 1 else Quotient(a, b)
  }

  function Quotient(a: u32, b: u32): u32
    requires b != 0
  {
    QuotientBound(a, b);
    a / b
  }

  function Remu(a: u32, b: u32): u32 {
    if b == 0 then a else a % b
  }

  function Div(dividend: i32, divisor: i32): i32 {
    if divisor == 0 then -1
    else if dividend == -0x8000_0000 && divisor == -1 then dividend
    else
      TruncBound(dividend, divisor);
      TruncDiv(dividend, divisor)
  }

  function Rem(dividend: i32, divisor: i32): i32 {
    if divisor == 0 then dividend
    else if dividend == -0x8000_0000 && divisor == -1 then 0
    else
      TruncRemainder(dividend, divisor);
      TruncRem(dividend, divisor)
  }

  lemma QuotientBound(a: nat, b: nat)
    requires b != 0
    ensures 0 <= a / b <= a && b * (a / b) + a % b == a
    ensures b > 1 && a > 0 ==> a / b < a
  {
    var q := a / b;
    assert b * q + a % b == a;
    if b == 1 {
      assert q == a;
    } else {
      assert 2 * q <= b * q by { MulMonotone(2, b, q); }
    }
  }

  lemma TruncBound(x: i32, y: i32)
    requires y != 0 && !(x == -0x8000_0000 && y == -1)
    ensures -0x8000_0000 <= TruncDiv(x, y) < 0x8000_0000
  {
    QuotientBound(Abs(x), Abs(y));
  }

  /** The remainder of a truncating division is smaller than the divisor and has the dividend's sign, or is zero. */
  lemma TruncRemainder(x: int, y: int)
    requires y != 0
    ensures Abs(TruncRem(x, y)) < Abs(y)
    ensures x >= 0 ==> TruncRem(x, y) >= 0
    ensures x <= 0 ==> TruncRem(x, y) <= 0
  {
    var q := Abs(x) / Abs(y);
    QuotientBound(Abs(x), Abs(y));
    assert TruncRem(x, y) == if x < 0 then -(Abs(x) % Abs(y)) else Abs(x) % Abs(y) by {
      SignedTimes(x, y, q);
    }
  }

  lemma SignedTimes(x: int, y: int, q: int)
    requires y != 0
    ensures y * (if (x < 0) != (y < 0) then -q else q) == if x < 0 then -(Abs(y) * q) else Abs(y) * q
  {
  }

  /** Dividend == divisor * quotient + remainder modulo 2^32, for all operands, zero divisors and overflow included. */
  lemma DivisionIdentity(a: u32, b: u32)
    ensures Wrap(b * Divu(a, b) + Remu(a, b)) == a
    ensures var x, y := ToSigned(a), ToSigned(b); Wrap(y * Div(x, y) + Rem(x, y)) == a
  {
    if b != 0 {
      QuotientBound(a, b);
    }
  }

  /** Away from the two corner cases the identity is exact and the remainder is the small one. */
  lemma ExactDivision(a: u32, b: u32)
    requires b != 0
    ensures b * Divu(a, b) + Remu(a, b) == a && Remu(a, b) < b
    ensures var x, y := ToSigned(a), ToSigned(b);
            !(x == -0x8000_0000 && y == -1) ==>
              && y * Div(x, y) + Rem(x, y) == x
              && Abs(Rem(x, y)) < Abs(y)
              && (Rem(x, y) == 0 || (Rem(x, y) < 0 <==> x < 0))
  {
    QuotientBound(a, b);
    TruncRemainder(ToSigned(a), ToSigned(b));
  }
}
