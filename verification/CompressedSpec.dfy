/** The RV32 integer compressed instructions as chapter 16 of the RISC-V Unprivileged ISA (20191213) lays them out:
    where each immediate bit sits in the 16-bit word, which encodings are reserved, and what each instruction does. */
module CompressedSpec {
  import A = Alu
  import H = HartSpec
  import opened FlatMemory
  import opened Architecture

  /** Bit from of the instruction, moved to bit to of an immediate. */
  function Put(inst: bv64, from: bv7, to: bv6): word
    requires from < 64 && to < 32
  {
    (((inst >> from) & 1) as word) << to
  }

  /** All ones above the sign bit when bit 12 of the instruction, the sign of every signed immediate, is set. */
  function SignAbove(inst: bv64, ones: word): word {
    if (inst >> 12) & 1 == 1 then ones else 0
  }

  function Reg5(inst: bv64, lo: bv7): reg
    requires lo < 64
  {
    ((inst >> lo) & 0x1F) as reg
  }

  function Reg3(inst: bv64, lo: bv7): reg
    requires lo < 64
  {
    8 + (((inst >> lo) & 7) as reg)
  }

  // ----- immediates

  function Imm6(inst: bv64): word {
    SignAbove(inst, 0xFFFF_FFE0) | Put(inst, 6, 4) | Put(inst, 5, 3) | Put(inst, 4, 2) | Put(inst, 3, 1)
        | Put(inst, 2, 0)
  }

  function Shamt(inst: bv64): word {
    Put(inst, 12, 5) | Put(inst, 6, 4) | Put(inst, 5, 3) | Put(inst, 4, 2) | Put(inst, 3, 1) | Put(inst, 2, 0)
  }

  function ImmLui(inst: bv64): word {
    SignAbove(inst, 0xFFFE_0000) | Put(inst, 6, 16) | Put(inst, 5, 15) | Put(inst, 4, 14) | Put(inst, 3, 13)
        | Put(inst, 2, 12)
  }

  /** nzimm[9|4|6|8:7|5] */
  function Imm16sp(inst: bv64): word {
    SignAbove(inst, 0xFFFF_FE00) | Put(inst, 6, 4) | Put(inst, 5, 6) | Put(inst, 4, 8) | Put(inst, 3, 7)
        | Put(inst, 2, 5)
  }

  /** nzuimm[5:4|9:6|2|3] */
  function Imm4spn(inst: bv64): word {
    Put(inst, 12, 5) | Put(inst, 11, 4) | Put(inst, 10, 9) | Put(inst, 9, 8) | Put(inst, 8, 7) | Put(inst, 7, 6)
    | Put(inst, 6, 2) | Put(inst, 5, 3)
  }

  /** uimm[5:3], uimm[2|6] */
  function ImmW(inst: bv64): word {
    Put(inst, 12, 5) | Put(inst, 11, 4) | Put(inst, 10, 3) | Put(inst, 6, 2) | Put(inst, 5, 6)
  }

  /** uimm[5], uimm[4:2|7:6] */
  function ImmLwsp(inst: bv64): word {
    Put(inst, 12, 5) | Put(inst, 6, 4) | Put(inst, 5, 3) | Put(inst, 4, 2) | Put(inst, 3, 7) | Put(inst, 2, 6)
  }

  /** uimm[5:2|7:6] */
  function ImmSwsp(inst: bv64): word {
    Put(inst, 12, 5) | Put(inst, 11, 4) | Put(inst, 10, 3) | Put(inst, 9, 2) | Put(inst, 8, 7) | Put(inst, 7, 6)
  }

  /** imm[11|4|9:8|10|6|7|3:1|5] */
  function ImmJ(inst: bv64): word {
    SignAbove(inst, 0xFFFF_F800) | Put(inst, 11, 4) | Put(inst, 10, 9) | Put(inst, 9, 8) | Put(inst, 8, 10)
        | Put(inst, 7, 6)
    | Put(inst, 6, 7) | Put(inst, 5, 3) | Put(inst, 4, 2) | Put(inst, 3, 1) | Put(inst, 2, 5)
  }

  /** imm[8|4:3], imm[7:6|2:1|5] */
  function ImmB(inst: bv64): word {
    SignAbove(inst, 0xFFFF_FF00) | Put(inst, 11, 4) | Put(inst, 10, 3) | Put(inst, 6, 7) | Put(inst, 5, 6)
    | Put(inst, 4, 2) | Put(inst, 3, 1) | Put(inst, 2, 5)
  }

  // ----- instructions

  datatype Instruction =
    | Addi4spn(rd: reg, imm: word)
    | Lw(rd: reg, rs1: reg, imm: word)
    | Sw(rs2: reg, rs1: reg, imm: word)
    | Addi(rd: reg, imm: word)
    | Jal(imm: word)
    | Li(rd: reg, imm: word)
    | Addi16sp(imm: word)
    | Lui(rd: reg, imm: word)
    | Srli(rd: reg, imm: word)
    | Srai(rd: reg, imm: word)
    | Andi(rd: reg, imm: word)
    | Sub(rd: reg, rs2: reg)
    | Xor(rd: reg, rs2: reg)
    | Or(rd: reg, rs2: reg)
    | And(rd: reg, rs2: reg)
    | J(imm: word)
    | Beqz(rs1: reg, imm: word)
    | Bnez(rs1: reg, imm: word)
    | Slli(rd: reg, imm: word)
    | Lwsp(rd: reg, imm: word)
    | Jr(rs1: reg)
    | Mv(rd: reg, rs2: reg)
    | Ebreak
    | Jalr(rs1: reg)
    | Add(rd: reg, rs2: reg)
    | Swsp(rs2: reg, imm: word)

  datatype Option = None | Some(value: Instruction)

  function Nonzero(imm: word, i: Instruction): Option {
    if imm == 0 then None else Some(i)
  }

  /** On RV32 a shift amount has five bits: encodings with the sixth set are custom. */
  function Shift(imm: word, i: Instruction): Option {
    if imm >= 32 then None else Some(i)
  }

  /** The RV32 integer instruction a 16-bit word encodes; None for reserved, custom and floating-point encodings. */
  function Decode(inst: bv64): Option {
    match inst & 3
    case 0 => Decode0(inst)
    case 1 => Decode1(inst)
    case 2 => Decode2(inst)
    case _ => None
  }

  function Decode0(inst: bv64): Option {
    match (inst >> 13) & 7
    case 0 => Nonzero(Imm4spn(inst), Addi4spn(Reg3(inst, 2), Imm4spn(inst)))
    case 2 => Some(Lw(Reg3(inst, 2), Reg3(inst, 7), ImmW(inst)))
    case 6 => Some(Sw(Reg3(inst, 2), Reg3(inst, 7), ImmW(inst)))
    case _ => None
  }

  function Decode1(inst: bv64): Option {
    match (inst >> 13) & 7
    case 0 => Some(Addi(Reg5(inst, 7), Imm6(inst)))
    case 1 => Some(Jal(ImmJ(inst)))
    case 2 => Some(Li(Reg5(inst, 7), Imm6(inst)))
    case 3 => if Reg5(inst, 7) == 2 then Nonzero(Imm16sp(inst), Addi16sp(Imm16sp(inst)))
              else Nonzero(ImmLui(inst), Lui(Reg5(inst, 7), ImmLui(inst)))
    case 4 => DecodeAlu(inst)
    case 5 => Some(J(ImmJ(inst)))
    case 6 => Some(Beqz(Reg3(inst, 7), ImmB(inst)))
    case _ => Some(Bnez(Reg3(inst, 7), ImmB(inst)))
  }

  function DecodeAlu(inst: bv64): Option {
    var rd, rs2 := Reg3(inst, 7), Reg3(inst, 2);
    match (inst >> 10) & 3
    case 0 => Shift(Shamt(inst), Srli(rd, Shamt(inst)))
    case 1 => Shift(Shamt(inst), Srai(rd, Shamt(inst)))
    case 2 => Some(Andi(rd, Imm6(inst)))
    case _ =>
      if (inst >> 12) & 1 == 1 then None
      else match (inst >> 5) & 3
           case 0 => Some(Sub(rd, rs2))
           case 1 => Some(Xor(rd, rs2))
           case 2 => Some(Or(rd, rs2))
           case _ => Some(And(rd, rs2))
  }

  function Decode2(inst: bv64): Option {
    match (inst >> 13) & 7
    case 0 => Shift(Shamt(inst), Slli(Reg5(inst, 7), Shamt(inst)))
    case 2 => if Reg5(inst, 7) == 0 then None else Some(Lwsp(Reg5(inst, 7), ImmLwsp(inst)))
    case 4 => DecodeRegister(inst)
    case 6 => Some(Swsp(Reg5(inst, 2), ImmSwsp(inst)))
    case _ => None
  }

  function DecodeRegister(inst: bv64): Option {
    var rd, rs2 := Reg5(inst, 7), Reg5(inst, 2);
    if (inst >> 12) & 1 == 0 then
      if rs2 != 0 then Some(Mv(rd, rs2)) else if rd != 0 then Some(Jr(rd)) else None
    else if rs2 != 0 then Some(Add(rd, rs2))
    else if rd != 0 then Some(Jalr(rd))
    else Some(Ebreak)
  }

  // ----- word arithmetic

  function Difference(a: word, b: word): word { a - b }

  function Exclusive(a: word, b: word): word { a ^ b }

  function Either(a: word, b: word): word { a | b }

  function Both(a: word, b: word): word { a & b }

  predicate IsZero(a: word) { a == 0 }

  /** On RV32 the meaning is given for shift amounts below 32 only. */
  predicate ShiftDefined(imm: word) { imm < 32 }

  /** What the instruction does; every link address and fall-through is pc + 2. */
  function Meaning(i: Instruction, s: Arch): Effect {
    match i
    case Addi4spn(rd, imm) => Write(s, rd, H.Forward(X(s, SP), imm), 2)
    case Lw(rd, rs1, imm) => Write(s, rd, H.Load(s.mem, H.Lw, H.At(H.Forward(X(s, rs1), imm))), 2)
    case Sw(rs2, rs1, imm) => Stores(s, H.Forward(X(s, rs1), imm), X(s, rs2))
    case Addi(rd, imm) => Write(s, rd, H.Forward(X(s, rd), imm), 2)
    case Jal(imm) => Jump(s, RA, H.Forward(s.pc, imm), 2)
    case Li(rd, imm) => Write(s, rd, imm, 2)
    case Addi16sp(imm) => Write(s, SP, H.Forward(X(s, SP), imm), 2)
    case Lui(rd, imm) => Write(s, rd, imm, 2)
    case Srli(rd, imm) => if ShiftDefined(imm) then Write(s, rd, A.ShiftRight(X(s, rd), imm), 2) else NotModelled
    case Srai(rd, imm) => if ShiftDefined(imm) then Write(s, rd, A.ShiftRightArithmetic(X(s, rd), imm), 2)
      else NotModelled
    case Andi(rd, imm) => Write(s, rd, Both(X(s, rd), imm), 2)
    case Sub(rd, rs2) => Write(s, rd, Difference(X(s, rd), X(s, rs2)), 2)
    case Xor(rd, rs2) => Write(s, rd, Exclusive(X(s, rd), X(s, rs2)), 2)
    case Or(rd, rs2) => Write(s, rd, Either(X(s, rd), X(s, rs2)), 2)
    case And(rd, rs2) => Write(s, rd, Both(X(s, rd), X(s, rs2)), 2)
    case J(imm) => Next(s.(pc := H.Forward(s.pc, imm)))
    case Beqz(rs1, imm) => Branch(s, IsZero(X(s, rs1)), imm, 2)
    case Bnez(rs1, imm) => Branch(s, !IsZero(X(s, rs1)), imm, 2)
    case Slli(rd, imm) => if ShiftDefined(imm) then Write(s, rd, A.ShiftLeft(X(s, rd), imm), 2) else NotModelled
    case Lwsp(rd, imm) => Write(s, rd, H.Load(s.mem, H.Lw, H.At(H.Forward(X(s, SP), imm))), 2)
    case Jr(rs1) => Next(s.(pc := A.Even(X(s, rs1))))
    case Mv(rd, rs2) => Write(s, rd, X(s, rs2), 2)
    case Ebreak => Breaks
    case Jalr(rs1) => Jump(s, RA, A.Even(X(s, rs1)), 2)
    case Add(rd, rs2) => Write(s, rd, H.Forward(X(s, rd), X(s, rs2)), 2)
    case Swsp(rs2, imm) => Stores(s, H.Forward(X(s, SP), imm), X(s, rs2))
  }

  function Stores(s: Arch, address: word, v: word): Effect {
    Next(Arch(s.x, H.Forward(s.pc, 2), H.StoreWord(s.mem, H.At(address), v)))
  }
}
