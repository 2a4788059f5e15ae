/** What the RV32IM arithmetic instructions, jumps and branches leave behind, as integers. */
module DisasResults {
  import A = Alu
  import H = HartSpec
  import opened FlatMemory
  import opened Arith
  import opened AluMeaning
  import opened HartEffects
  import opened Architecture
  import opened DisasTables
  import opened DisasDecode
  import opened DisasMeaning

  predicate Arithmetic(op: BaseOp) { KindOf(op).WithImmediate? || KindOf(op).WithRegister? }

  /** r is the result of op on a and b; shifts by 32 or more are left open. */
  predicate Computes(op: BaseOp, a: word, b: word, r: word) {
    var (ua, ub, ur) := (A.Value(a), A.Value(b), A.Value(r));
    var (sa, sb, sr) := (A.Signed(a), A.Signed(b), A.Signed(r));
    match op
    case Addi | Add => ur == (ua + ub) % 0x1_0000_0000
    case Sub => ur == (ua - ub) % 0x1_0000_0000
    case Slti | Slt => ur == if sa < sb then 1 else 0
    case Sltiu | Sltu => ur == if ua < ub then 1 else 0
    case Xori | Xor => forall i | 0 <= i < 32 :: Bit(r, i) <==> Bit(a, i) != Bit(b, i)
    case Ori | Or => forall i | 0 <= i < 32 :: Bit(r, i) <==> Bit(a, i) || Bit(b, i)
    case Andi | And => forall i | 0 <= i < 32 :: Bit(r, i) <==> Bit(a, i) && Bit(b, i)
    case Slli | Sll => ub < 32 ==> ur == ua * Pow2(ub) % 0x1_0000_0000
    case Srli | Srl => ub < 32 ==> ur == ua / Pow2(ub)
    case Srai | Sra => ub < 32 ==> sr == sa / Pow2(ub)
    case Mul => ur == ua * ub % 0x1_0000_0000
    case Mulh => sr == sa * sb / 0x1_0000_0000
    case Mulhsu => sr == sa * ub / 0x1_0000_0000
    case Mulhu => ur == ua * ub / 0x1_0000_0000
    case Divu => if ub == 0 then ur == 0xFFFF_FFFF else ur == ua / ub
    case Remu => if ub == 0 then ur == ua else ur == ua % ub
    case Div =>
      if sb == 0 then sr == -1
      else if sa == -0x8000_0000 && sb == -1 then sr == sa
      else Abs(sa - sb * sr) < Abs(sb) && (sa - sb * sr == 0 || (sa - sb * sr < 0 <==> sa < 0))
    case Rem =>
      if sb == 0 then sr == sa
      else if sa == -0x8000_0000 && sb == -1 then sr == 0
      else Abs(sr) < Abs(sb) && (sr == 0 || (sr < 0 <==> sa < 0)) && (sa - sr) % Abs(sb) == 0
    case _ => false
  }

  lemma SumsCompute(op: BaseOp, a: word, b: word)
    requires op.Addi? || op.Add? || op.Sub?
    ensures Arithmetic(op) && Computes(op, a, b, A.DoAlu(KindOf(op).alu, a, b))
  {
    hide A.DoAlu, A.Value, A.Signed;
    SumsOnValues(a, b);
    DifferenceAndTarget(a, b);
  }

  lemma ComparisonsCompute(op: BaseOp, a: word, b: word)
    requires op.Slti? || op.Slt? || op.Sltiu? || op.Sltu?
    ensures Arithmetic(op) && Computes(op, a, b, A.DoAlu(KindOf(op).alu, a, b))
  {
    hide A.DoAlu, A.Value, A.Signed;
    ComparisonsOnValues(a, b);
  }

  lemma LogicComputes(op: BaseOp, a: word, b: word)
    requires op.Xori? || op.Xor? || op.Ori? || op.Or? || op.Andi? || op.And?
    ensures Arithmetic(op) && Computes(op, a, b, A.DoAlu(KindOf(op).alu, a, b))
  {
    hide A.DoAlu, A.Value, A.Signed, Bit;
    forall i: nat
      ensures Bit(A.DoAlu(A.Xor, a, b), i) <==> Bit(a, i) != Bit(b, i)
      ensures Bit(A.DoAlu(A.Or, a, b), i) <==> Bit(a, i) || Bit(b, i)
      ensures Bit(A.DoAlu(A.And, a, b), i) <==> Bit(a, i) && Bit(b, i)
    {
      BitwiseOnBits(a, b, i);
    }
  }

  lemma ShiftsCompute(op: BaseOp, a: word, b: word)
    requires op.Slli? || op.Sll? || op.Srli? || op.Srl? || op.Srai? || op.Sra?
    ensures Arithmetic(op)
    ensures A.Defined(KindOf(op).alu, b) ==> Computes(op, a, b, A.DoAlu(KindOf(op).alu, a, b))
  {
    hide A.DoAlu, A.Value, A.Signed;
    if b < 32 {
      ShiftsOnValues(a, b);
    }
  }

  lemma LowProductComputes(a: word, b: word)
    ensures Arithmetic(Mul) && Computes(Mul, a, b, A.DoAlu(KindOf(Mul).alu, a, b))
  {
    hide A.DoAlu, A.Value, A.Signed;
    A.MulIsLowWord(a, b);
  }

  lemma HighOfProduct(product: int, high: int, low: int)
    requires product == high * 0x1_0000_0000 + low && 0 <= low < 0x1_0000_0000
    ensures high == product / 0x1_0000_0000
  {
  }

  lemma MulhComputes(a: word, b: word)
    ensures Arithmetic(Mulh) && Computes(Mulh, a, b, A.DoAlu(KindOf(Mulh).alu, a, b))
  {
    hide A.DoAlu, A.Value, A.Signed;
    A.MulJoinsHigh(a, b);
    HighOfProduct(A.Signed(a) * A.Signed(b), A.Signed(A.DoAlu(A.MulHigh, a, b)), A.Value(A.DoAlu(A.Mul, a, b)));
  }

  lemma MulhsuComputes(a: word, b: word)
    ensures Arithmetic(Mulhsu) && Computes(Mulhsu, a, b, A.DoAlu(KindOf(Mulhsu).alu, a, b))
  {
    hide A.DoAlu, A.Value, A.Signed;
    A.MulJoinsHigh(a, b);
    HighOfProduct(A.Signed(a) * A.Value(b), A.Signed(A.DoAlu(A.MulHighSU, a, b)), A.Value(A.DoAlu(A.Mul, a, b)));
  }

  lemma MulhuComputes(a: word, b: word)
    ensures Arithmetic(Mulhu) && Computes(Mulhu, a, b, A.DoAlu(KindOf(Mulhu).alu, a, b))
  {
    hide A.DoAlu, A.Value, A.Signed;
    A.MulJoinsHigh(a, b);
    HighOfProduct(A.Value(a) * A.Value(b), A.Value(A.DoAlu(A.MulHighU, a, b)), A.Value(A.DoAlu(A.Mul, a, b)));
  }

  lemma DivisionIs(x: int, d: int, q: int, r: int)
    requires d > 0 && x == d * q + r && 0 <= r < d
    ensures x / d == q && x % d == r
  {
    QuotientIs(x, d, q, r);
    assert x == d * (x / d) + x % d;
  }

  lemma UnsignedDivisionComputes(op: BaseOp, a: word, b: word)
    requires op.Divu? || op.Remu?
    ensures Arithmetic(op) && Computes(op, a, b, A.DoAlu(KindOf(op).alu, a, b))
  {
    hide A.DoAlu, A.Value, A.Signed;
    UnsignedDivision(a, b);
    var q, r := A.Value(A.DoAlu(A.DivU, a, b)), A.Value(A.DoAlu(A.RemU, a, b));
    if A.Value(b) != 0 {
      DivisionIs(A.Value(a), A.Value(b), q, r);
    }
  }

  lemma MultipleOfAbs(y: int, q: int)
    requires y != 0
    ensures y * q % Abs(y) == 0
  {
    var d, k := Abs(y), if y < 0 then -q else q;
    assert y * q == d * k;
    DivisionIs(d * k, d, k, 0);
  }

  lemma SignedDivisionComputes(op: BaseOp, a: word, b: word)
    requires op.Div? || op.Rem?
    ensures Arithmetic(op) && Computes(op, a, b, A.DoAlu(KindOf(op).alu, a, b))
  {
    hide A.DoAlu, A.Value, A.Signed;
    SignedDivision(a, b);
    if A.Signed(b) != 0 {
      MultipleOfAbs(A.Signed(b), A.Signed(A.DoAlu(A.DivS, a, b)));
    }
  }

  lemma ArithmeticOps(op: BaseOp)
    requires Arithmetic(op)
    ensures op.Addi? || op.Add? || op.Sub? || op.Slti? || op.Slt? || op.Sltiu? || op.Sltu? || op.Xori? || op.Xor?
        || op.Ori? || op.Or? || op.Andi? || op.And? || op.Slli? || op.Sll? || op.Srli? || op.Srl? || op.Srai? || op.Sra?
        || op.Mul? || op.Mulh? || op.Mulhsu? || op.Mulhu? || op.Divu? || op.Remu? || op.Div? || op.Rem?
  {
  }

  lemma AluComputes(op: BaseOp, a: word, b: word)
    requires Arithmetic(op) && A.Defined(KindOf(op).alu, b)
    ensures Computes(op, a, b, A.DoAlu(KindOf(op).alu, a, b))
  {
    hide Arithmetic, Computes, A.DoAlu, A.Defined;
    ArithmeticOps(op);
    match op {
      case Addi | Add | Sub => SumsCompute(op, a, b);
      case Slti | Slt | Sltiu | Sltu => ComparisonsCompute(op, a, b);
      case Xori | Xor | Ori | Or | Andi | And => LogicComputes(op, a, b);
      case Slli | Sll | Srli | Srl | Srai | Sra => ShiftsCompute(op, a, b);
      case Mul => LowProductComputes(a, b);
      case Mulh => MulhComputes(a, b);
      case Mulhsu => MulhsuComputes(a, b);
      case Mulhu => MulhuComputes(a, b);
      case Divu | Remu => UnsignedDivisionComputes(op, a, b);
      case _ => SignedDivisionComputes(op, a, b);
    }
  }

  /** The second operand: the immediate or the register rs2. */
  function SecondOperand(op: BaseOp, f: Fields, s: Arch): word {
    if KindOf(op).WithImmediate? then f.imm else X(s, f.rs2)
  }

  /** An arithmetic instruction leaves its result in rd and goes on at the next instruction. */
  lemma InstructionComputes(op: BaseOp, f: Fields, len: word, s: Arch)
    requires Arithmetic(op) && Execute(op, f, len, s) != NotModelled
    ensures exists r ::
              Computes(op, X(s, f.rs1), SecondOperand(op, f, s), r) && Execute(op, f, len, s) == Write(s, f.rd, r, len)
  {
    hide KindOf, Computes, A.DoAlu, A.Defined, X, Write;
    var a, b := X(s, f.rs1), SecondOperand(op, f, s);
    AluComputes(op, a, b);
    assert Execute(op, f, len, s) == Write(s, f.rd, A.DoAlu(KindOf(op).alu, a, b), len);
  }

  /** A register number below 32 is the register it names. */
  lemma IndexIsRegister(r: reg)
    requires r < 32
    ensures Index(r) == r as int
  {
    assert r & 0x1F == r;
  }

  lemma AfterJump(s: Arch, target: word, rd: reg, len: word)
    ensures Jump(s, rd, target, len).Next? && Jump(s, rd, target, len).state.pc == target
    ensures var x := Jump(s, rd, target, len).state.x;
      Index(rd) != 0 ==> A.Value(x[Index(rd)]) == (A.Value(s.pc) + A.Value(len)) % 0x1_0000_0000
  {
    hide H.Forward, A.Value, Index;
    ForwardValue(s.pc, len);
  }

  /** jal goes to the pc plus the offset, jalr to rs1 plus the offset with its low bit cleared; both leave the
      address of the next instruction in rd. */
  lemma JumpsCompute(op: BaseOp, f: Fields, len: word, s: Arch)
    requires op.Jal? || op.Jalr?
    ensures Execute(op, f, len, s).Next?
    ensures var next := Execute(op, f, len, s).state;
      && A.Value(next.pc) == (if op.Jal? then (A.Value(s.pc) + A.Value(f.imm)) % 0x1_0000_0000
                              else (A.Value(X(s, f.rs1)) + A.Value(f.imm)) % 0x1_0000_0000 / 2 * 2)
      && (Index(f.rd) != 0 ==> A.Value(next.x[Index(f.rd)]) == (A.Value(s.pc) + A.Value(len)) % 0x1_0000_0000)
  {
    hide A.DoAlu, A.Value, Jump, Index, X;
    if op.Jal? {
      SumsOnValues(s.pc, f.imm);
      AfterJump(s, A.DoAlu(A.Jal, s.pc, f.imm), f.rd, len);
    } else {
      DifferenceAndTarget(X(s, f.rs1), f.imm);
      AfterJump(s, A.DoAlu(A.Jalr, X(s, f.rs1), f.imm), f.rd, len);
    }
  }

  /** The condition of a branch instruction on its two registers. */
  predicate BranchTaken(op: BaseOp, a: word, b: word) {
    match op
    case Beq => A.Value(a) == A.Value(b)
    case Bne => A.Value(a) != A.Value(b)
    case Blt => A.Signed(a) < A.Signed(b)
    case Bge => A.Signed(a) >= A.Signed(b)
    case Bltu => A.Value(a) < A.Value(b)
    case Bgeu => A.Value(a) >= A.Value(b)
    case _ => false
  }

  lemma BranchTakenIsShouldBranch(op: BaseOp, a: word, b: word)
    requires KindOf(op).Branches?
    ensures H.ShouldBranch(a, b, KindOf(op).branch) <==> BranchTaken(op, a, b)
  {
    hide H.ShouldBranch, A.Value, A.Signed;
    BranchConditions(KindOf(op).branch, a, b);
  }

  /** A branch goes to the pc plus the offset or to the next instruction, and changes nothing else. */
  lemma BranchesCompute(op: BaseOp, f: Fields, len: word, s: Arch)
    requires KindOf(op).Branches?
    ensures Execute(op, f, len, s).Next?
    ensures var next, taken := Execute(op, f, len, s).state, BranchTaken(op, X(s, f.rs1), X(s, f.rs2));
      && A.Value(next.pc) == (A.Value(s.pc) + A.Value(if taken then f.imm else len)) % 0x1_0000_0000
      && next.x == s.x && next.mem == s.mem
  {
    hide KindOf, H.ShouldBranch, BranchTaken, A.Value, H.Forward, X;
    BranchTakenIsShouldBranch(op, X(s, f.rs1), X(s, f.rs2));
    ForwardValue(s.pc, f.imm);
    ForwardValue(s.pc, len);
  }
}
