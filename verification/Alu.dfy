/** The ALU: the switch over operations, and the variadic OR-fold dispatcher that must agree with it. */
module Alu {
  import opened Arith
  import opened FlatMemory

  datatype AluOp =
    | Or | And | Xor | Add | Auipc | Jal | Sub | Sll | Srl | Sra | Slt | Sltu | Jalr
    | MulHigh | MulHighSU | MulHighU | Mul | DivU | RemU | DivS | RemS

  /** The unsigned and the signed value of a register. */
  function Value(w: word): u32 { w as int }
  function Signed(w: word): i32 { ToSigned(Value(w)) }

  /** Conversion back to uint32_t, reducing modulo 2^32. */
  function Word(x: int): word { Wrap(x) as word }

  /** Shifts of a uint32_t. */
  function ShiftLeft(w: word, n: word): word
    requires n < 32
  {
    w << n
  }

  function ShiftRight(w: word, n: word): word
    requires n < 32
  {
    w >> n
  }

  /** Right shift of an int32_t. */
  function ShiftRightArithmetic(w: word, n: word): word
    requires n < 32
  {
    if w < 0x8000_0000 then w >> n else !((!w) >> n)
  }

  /** A jump target: the low bit is cleared. */
  function Even(w: word): word { w & 0xFFFF_FFFE }

  predicate IsShift(op: AluOp) { op.Sll? || op.Srl? || op.Sra? }

  /** The C++ shifts are defined for amounts below 32 only. */
  predicate Defined(op: AluOp, b: word) { IsShift(op) ==> b < 32 }

  function DoAlu(op: AluOp, a: word, b: word): word
    requires Defined(op, b)
  {
    match op
    case Or => a | b
    case And => a & b
    case Xor => a ^ b
    case Add => a + b
    case Auipc => a + b
    case Jal => a + b
    case Sub => a - b
    case Sll => ShiftLeft(a, b)
    case Srl => ShiftRight(a, b)
    case Sra => ShiftRightArithmetic(a, b)
    case Slt => if Signed(a) < Signed(b) then 1 else 0
    case Sltu => if a < b then 1 else 0
    case Jalr => Even(a + b)
    case MulHigh => Word(Mulh(Signed(a), Signed(b)))
    case MulHighSU => Word(Mulhsu(Signed(a), Value(b)))
    case MulHighU => Word(MulhuSpec(Value(a), Value(b)))
    case Mul => Word(Signed(a) * Signed(b))
    case DivU => Word(Divu(Value(a), Value(b)))
    case RemU => Word(Remu(Value(a), Value(b)))
    case DivS => Word(Div(Signed(a), Signed(b)))
    case RemS => Word(Rem(Signed(a), Signed(b)))
  }

  // ----- the variadic dispatcher

  datatype AluResult = Result(word: word) | Throws

  /** alu_function<Op>::exec, the specialisation for each operation. */
  function ExecOp(op: AluOp, a: word, b: word): word
    requires Defined(op, b)
  {
    match op
    case Or => a | b
    case And => a & b
    case Xor => a ^ b
    case Add | Auipc | Jal => a + b
    case Sub => a - b
    case Sll => ShiftLeft(a, b)
    case Srl => ShiftRight(a, b)
    case Sra => ShiftRightArithmetic(a, b)
    case Slt => if Signed(a) < Signed(b) then 1 else 0
    case Sltu => if a < b then 1 else 0
    case Jalr => Even(a + b)
    case MulHigh => Word(Mulh(Signed(a), Signed(b)))
    case MulHighSU => Word(Mulhsu(Signed(a), Value(b)))
    case MulHighU => Word(MulhuSpec(Value(a), Value(b)))
    case Mul => Word(Signed(a) * Signed(b))
    case DivU => ExecDivU(a, b)
    case RemU => ExecRemU(a, b)
    case DivS => ExecDivS(Signed(a), Signed(b))
    case RemS => ExecRemS(Signed(a), Signed(b))
  }

  function ExecDivU(a: word, b: word): word {
    if b == 0 then 0xFFFF_FFFF else Word(Value(a) / Value(b))
  }

  function ExecRemU(a: word, b: word): word {
    if b == 0 then a else Word(Value(a) % Value(b))
  }

  function ExecDivS(dividend: i32, divisor: i32): word {
    if divisor == 0 then 0xFFFF_FFFF
    else if dividend == -0x8000_0000 && divisor == -1 then Word(dividend)
    else Word(TruncDiv(dividend, divisor))
  }

  function ExecRemS(dividend: i32, divisor: i32): word {
    if divisor == 0 then Word(dividend)
    else if dividend == -0x8000_0000 && divisor == -1 then 0
    else Word(TruncRem(dividend, divisor))
  }

  /** The operator of the fold. */
  function Combine(x: word, y: word): word { x | y }

  /** The unary right fold over |: a candidate contributes its own specialisation where it is the requested
      operation, and zero elsewhere. */
  function FoldOr(candidates: seq<AluOp>, op: AluOp, a: word, b: word): word
    requires candidates != [] && Defined(op, b)
  {
    var first := if op == candidates[0] then ExecOp(candidates[0], a, b) else 0;
    if |candidates| == 1 then first else Combine(first, FoldOr(candidates[1..], op, a, b))
  }

  predicate AnyIs(candidates: seq<AluOp>, op: AluOp) {
    candidates != [] && (candidates[0] == op || AnyIs(candidates[1..], op))
  }

  function DoAluSwitch(candidates: seq<AluOp>, op: AluOp, a: word, b: word): AluResult
    requires Defined(op, b)
  {
    if AnyIs(candidates, op) then Result(FoldOr(candidates, op, a, b)) else Throws
  }

  const STATIC_OPS: seq<AluOp> :=
    [Or, And, Xor, Add, Auipc, Jal, Sub, Sll, Srl, Sra, Slt, Sltu, Jalr,
     MulHigh, MulHighSU, MulHighU, Mul, DivU, RemU, DivS, RemS]

  function DoAluStatic(op: AluOp, a: word, b: word): AluResult
    requires Defined(op, b)
  {
    DoAluSwitch(STATIC_OPS, op, a, b)
  }

  lemma {:induction false} AnyIsMembership(candidates: seq<AluOp>, op: AluOp)
    ensures AnyIs(candidates, op) <==> op in candidates
  {
    if candidates != [] {
      AnyIsMembership(candidates[1..], op);
    }
  }

  lemma {:induction false} FoldMiss(candidates: seq<AluOp>, op: AluOp, a: word, b: word)
    requires candidates != [] && Defined(op, b) && !AnyIs(candidates, op)
    ensures FoldOr(candidates, op, a, b) == 0
  {
    hide Combine;
    OrUnits(0);
    if |candidates| > 1 {
      FoldMiss(candidates[1..], op, a, b);
    }
  }

  lemma {:induction false} FoldHit(candidates: seq<AluOp>, op: AluOp, a: word, b: word)
    requires AnyIs(candidates, op) && Defined(op, b)
    ensures FoldOr(candidates, op, a, b) == ExecOp(op, a, b)
  {
    hide ExecOp, Combine;
    OrUnits(ExecOp(op, a, b));
    if |candidates| > 1 {
      if AnyIs(candidates[1..], op) {
        FoldHit(candidates[1..], op, a, b);
      } else {
        FoldMiss(candidates[1..], op, a, b);
      }
    }
  }

  lemma OrUnits(w: word)
    ensures Combine(w, w) == w && Combine(w, 0) == w && Combine(0, w) == w && Combine(0, 0) == 0
  {
  }

  lemma WrapSmall(v: u32)
    ensures Wrap(v) == v
  {
  }

  lemma Converted(w: word)
    ensures Value(w) as word == w
  {
  }

  lemma WordOfValue(w: word)
    ensures Word(Value(w)) == w
  {
    hide Wrap, Value;
    WrapSmall(Value(w));
    Converted(w);
  }

  lemma ZeroValue(w: word)
    ensures Value(w) == 0 <==> w == 0
  {
  }

  lemma AllOnes()
    ensures Word(TWO32 - 1) == 0xFFFF_FFFF && Word(-1) == 0xFFFF_FFFF && Word(0) == 0
  {
    WordOfValue(0xFFFF_FFFF);
    WordOfValue(0);
    assert Wrap(TWO32 - 1) == TWO32 - 1 && Wrap(-1) == TWO32 - 1;
  }

  /** Every specialisation computes what the case of the switch computes. */
  lemma ExecOpIsDoAlu(op: AluOp, a: word, b: word)
    requires Defined(op, b)
    ensures ExecOp(op, a, b) == DoAlu(op, a, b)
  {
    hide Word, Value, Signed, ShiftLeft, ShiftRight, ShiftRightArithmetic, Even, Mulh, Mulhsu, MulhuSpec, TruncDiv,
      TruncRem;
    WordOfValue(a);
    ZeroValue(b);
    AllOnes();
  }

  /** The dispatcher returns what the switch returns exactly for the operations it was instantiated with, duplicates
      or not, and throws for every other one. */
  lemma FoldAgreesWithSwitch(candidates: seq<AluOp>, op: AluOp, a: word, b: word)
    requires Defined(op, b)
    ensures DoAluSwitch(candidates, op, a, b) == if op in candidates then Result(DoAlu(op, a, b)) else Throws
  {
    AnyIsMembership(candidates, op);
    if AnyIs(candidates, op) {
      FoldHit(candidates, op, a, b);
      ExecOpIsDoAlu(op, a, b);
    }
  }

  lemma StaticDispatchIsTotal(op: AluOp, a: word, b: word)
    requires Defined(op, b)
    ensures DoAluStatic(op, a, b) == Result(DoAlu(op, a, b))
  {
    FoldAgreesWithSwitch(STATIC_OPS, op, a, b);
    EveryOperationListed(op);
  }

  lemma EveryOperationListed(op: AluOp)
    ensures op in STATIC_OPS
  {
    assert [Or, And, Xor, Add, Auipc, Jal] + [Sub, Sll, Srl, Sra, Slt] + [Sltu, Jalr, MulHigh, MulHighSU]
         + [MulHighU, Mul, DivU] + [RemU, DivS, RemS] == STATIC_OPS;
  }

  // ----- the 64-bit product in two registers

  lemma TopBit(w: word)
    requires w & 0x8000_0000 != 0
    ensures w as int >= 0x8000_0000
  {
  }

  lemma Doubled(w: word)
    requires w & 0x8000_0000 == 0
    ensures (w << 1) as int == 2 * (w as int)
  {
  }

  lemma DoubledPlusOne(w: word)
    requires w & 0x8000_0000 == 0
    ensures ((w << 1) | 1) as int == 2 * (w as int) + 1
  {
  }

  /** The word of a value, bit by bit from the top. */
  lemma Represented(v: u32) returns (w: word)
    ensures w as int == v
    decreases v
  {
    if v == 0 {
      w := 0;
    } else {
      var half := Represented(v / 2);
      if half & 0x8000_0000 != 0 {
        TopBit(half);
      }
      if v % 2 == 0 {
        Doubled(half);
        w := half << 1;
      } else {
        DoubledPlusOne(half);
        w := (half << 1) | 1;
      }
    }
  }

  lemma ValueOfU32(v: u32)
    ensures (v as word) as int == v
  {
    var w := Represented(v);
    Converted(w);
  }

  lemma ValueOfWord(x: int)
    ensures Value(Word(x)) == Wrap(x)
  {
    hide Wrap;
    ValueOfU32(Wrap(x));
  }

  lemma SignedOfWord(r: i32)
    ensures Signed(Word(r)) == r
  {
    hide Value, Word;
    ValueOfWord(r);
  }

  /** What mul leaves in rd is the low word of the product, however the operands are read. */
  lemma MulIsLowWord(a: word, b: word)
    ensures Value(DoAlu(Mul, a, b)) == Wrap(Value(a) * Value(b))
  {
    hide Value, Word, Wrap;
    ValueOfWord(Signed(a) * Signed(b));
    LowWordOfProduct(Value(a), Value(b));
  }

  /** Each high word joined with what mul leaves is the full 64-bit product: unsigned, signed and mixed. */
  lemma MulJoinsHigh(a: word, b: word)
    ensures Value(DoAlu(MulHighU, a, b)) * TWO32 + Value(DoAlu(Mul, a, b)) == Value(a) * Value(b)
    ensures Signed(DoAlu(MulHigh, a, b)) * TWO32 + Value(DoAlu(Mul, a, b)) == Signed(a) * Signed(b)
    ensures Signed(DoAlu(MulHighSU, a, b)) * TWO32 + Value(DoAlu(Mul, a, b)) == Signed(a) * Value(b)
  {
    hide Value, Word, Wrap, Mulh, Mulhsu, MulhuSpec;
    FullProduct(Value(a), Value(b));
    MulIsLowWord(a, b);
    ValueOfWord(MulhuSpec(Value(a), Value(b)));
    WrapSmall(MulhuSpec(Value(a), Value(b)));
    SignedOfWord(Mulh(Signed(a), Signed(b)));
    SignedOfWord(Mulhsu(Signed(a), Value(b)));
  }
}
