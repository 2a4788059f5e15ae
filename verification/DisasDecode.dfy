/** decode_inst_opcode, the operand extractors and decode_inst_operands. */
module DisasDecode {
  import opened Architecture
  import opened DisasTables

  type inst64 = bv64

  function Major(inst: inst64): bv5 { ((inst >> 2) & 0x1F) as bv5 }
  function Funct3(inst: inst64): bv3 { ((inst >> 12) & 7) as bv3 }
  function Funct7(inst: inst64): bv7 { ((inst >> 25) & 0x7F) as bv7 }
  /** The key of the register-register switches: funct7 above funct3. */
  function Funct10(inst: inst64): bv10 { (((inst >> 22) & 0x3F8) | ((inst >> 12) & 7)) as bv10 }

  /** The bits above the shift amount of a shift by an immediate. */
  function Funct5(inst: inst64): bv5 { ((inst >> 27) & 0x1F) as bv5 }

  // ----- the three compressed quadrants

  function Quadrant0(inst: inst64, isa: Isa): Opcode {
    match (inst >> 13) & 7
    case 0 => Compressed(CAddi4spn)
    case 1 => if isa.Rv128? then Compressed(CLq) else Compressed(CFld)
    case 2 => Compressed(CLw)
    case 3 => if isa.Rv32? then Compressed(CFlw) else Compressed(CLd)
    case 5 => if isa.Rv128? then Compressed(CSq) else Compressed(CFsd)
    case 6 => Compressed(CSw)
    case 7 => if isa.Rv32? then Compressed(CFsw) else Compressed(CSd)
    case _ => Illegal
  }

  function Quadrant1(inst: inst64, isa: Isa): Opcode {
    match (inst >> 13) & 7
    case 0 => if (inst >> 2) & 0x7FF == 0 then Compressed(CNop) else Compressed(CAddi)
    case 1 => if isa.Rv32? then Compressed(CJal) else Compressed(CAddiw)
    case 2 => Compressed(CLi)
    case 3 => if (inst >> 7) & 0x1F == 2 then Compressed(CAddi16sp) else Compressed(CLui)
    case 4 => Quadrant1Alu(inst)
    case 5 => Compressed(CJ)
    case 6 => Compressed(CBeqz)
    case _ => Compressed(CBnez)
  }

  function Quadrant1Alu(inst: inst64): Opcode {
    match (inst >> 10) & 3
    case 0 => Compressed(CSrli)
    case 1 => Compressed(CSrai)
    case 2 => Compressed(CAndi)
    case _ =>
      match ((inst >> 10) & 4) | ((inst >> 5) & 3)
      case 0 => Compressed(CSub)
      case 1 => Compressed(CXor)
      case 2 => Compressed(COr)
      case 3 => Compressed(CAnd)
      case 4 => Compressed(CSubw)
      case 5 => Compressed(CAddw)
      case _ => Illegal
  }

  function Quadrant2(inst: inst64, isa: Isa): Opcode {
    match (inst >> 13) & 7
    case 0 => Compressed(CSlli)
    case 1 => if isa.Rv128? then Compressed(CLqsp) else Compressed(CFldsp)
    case 2 => Compressed(CLwsp)
    case 3 => if isa.Rv32? then Compressed(CFlwsp) else Compressed(CLdsp)
    case 4 => Quadrant2Register(inst)
    case 5 => if isa.Rv128? then Compressed(CSqsp) else Compressed(CFsdsp)
    case 6 => Compressed(CSwsp)
    case _ => if isa.Rv32? then Compressed(CFswsp) else Compressed(CSdsp)
  }

  function Quadrant2Register(inst: inst64): Opcode {
    if (inst >> 12) & 1 == 0 then
      if (inst >> 2) & 0x1F == 0 then Compressed(CJr) else Compressed(CMv)
    else if (inst >> 2) & 0x1F == 0 then
      if (inst >> 7) & 0x1F == 0 then Compressed(CEbreak) else Compressed(CJalr)
    else Compressed(CAdd)
  }

  // ----- the full-length opcodes, one function per major opcode

  function LoadOp(inst: inst64): Opcode {
    match Funct3(inst)
    case 0 => Base(Lb)
    case 1 => Base(Lh)
    case 2 => Base(Lw)
    case 3 => Base(Wide(Ld))
    case 4 => Base(Lbu)
    case 5 => Base(Lhu)
    case 6 => Base(Wide(Lwu))
    case _ => Base(Wide(Ldu))
  }

  function FloatLoadOp(inst: inst64): Opcode {
    match Funct3(inst)
    case 2 => Base(Float(Flw))
    case 3 => Base(Float(Fld))
    case 4 => Base(Float(Flq))
    case _ => Illegal
  }

  function MiscMemOp(inst: inst64): Opcode {
    match Funct3(inst)
    case 0 => Base(System(Fence))
    case 1 => Base(System(FenceI))
    case 2 => Base(Wide(Lq))
    case _ => Illegal
  }

  function ImmediateOp(inst: inst64): Opcode {
    match Funct3(inst)
    case 0 => Base(Addi)
    case 1 => if Funct5(inst) == 0 then Base(Slli) else Illegal
    case 2 => Base(Slti)
    case 3 => Base(Sltiu)
    case 4 => Base(Xori)
    case 5 => if Funct5(inst) == 0 then Base(Srli) else if Funct5(inst) == 8 then Base(Srai) else Illegal
    case 6 => Base(Ori)
    case _ => Base(Andi)
  }

  function ImmediateWordOp(inst: inst64): Opcode {
    match Funct3(inst)
    case 0 => Base(Wide(Addiw))
    case 1 => if Funct7(inst) == 0 then Base(Wide(Slliw)) else Illegal
    case 5 => if Funct7(inst) == 0 then Base(Wide(Srliw)) else if Funct7(inst) == 32 then Base(Wide(Sraiw)) else Illegal
    case _ => Illegal
  }

  function StoreOp(inst: inst64): Opcode {
    match Funct3(inst)
    case 0 => Base(Sb)
    case 1 => Base(Sh)
    case 2 => Base(Sw)
    case 3 => Base(Wide(Sd))
    case 4 => Base(Wide(Sq))
    case _ => Illegal
  }

  function FloatStoreOp(inst: inst64): Opcode {
    match Funct3(inst)
    case 2 => Base(Float(Fsw))
    case 3 => Base(Float(Fsd))
    case 4 => Base(Float(Fsq))
    case _ => Illegal
  }

  function RegisterOp(inst: inst64): Opcode {
    match Funct10(inst)
    case 0 => Base(Add)
    case 1 => Base(Sll)
    case 2 => Base(Slt)
    case 3 => Base(Sltu)
    case 4 => Base(Xor)
    case 5 => Base(Srl)
    case 6 => Base(Or)
    case 7 => Base(And)
    case 8 => Base(Mul)
    case 9 => Base(Mulh)
    case 10 => Base(Mulhsu)
    case 11 => Base(Mulhu)
    case 12 => Base(Div)
    case 13 => Base(Divu)
    case 14 => Base(Rem)
    case 15 => Base(Remu)
    case 256 => Base(Sub)
    case 261 => Base(Sra)
    case _ => Illegal
  }

  function RegisterWordOp(inst: inst64): Opcode {
    match Funct10(inst)
    case 0 => Base(Wide(Addw))
    case 1 => Base(Wide(Sllw))
    case 5 => Base(Wide(Srlw))
    case 8 => Base(Wide(Mulw))
    case 12 => Base(Wide(Divw))
    case 13 => Base(Wide(Divuw))
    case 14 => Base(Wide(Remw))
    case 15 => Base(Wide(Remuw))
    case 256 => Base(Wide(Subw))
    case 261 => Base(Wide(Sraw))
    case _ => Illegal
  }

  /** Sign injection is told apart because the pseudo table lifts it. */
  function FloatOp(inst: inst64): Opcode {
    match Funct7(inst)
    case 16 => SignInjectionOp(inst, FsgnjS, FsgnjnS, FsgnjxS)
    case 17 => SignInjectionOp(inst, FsgnjD, FsgnjnD, FsgnjxD)
    case 19 => SignInjectionOp(inst, FsgnjQ, FsgnjnQ, FsgnjxQ)
    case _ => Base(Float(FloatOrAtomic))
  }

  function SignInjectionOp(inst: inst64, copy: FloatOpcode, negate: FloatOpcode, exclusive: FloatOpcode): Opcode {
    match Funct3(inst)
    case 0 => Base(Float(copy))
    case 1 => Base(Float(negate))
    case 2 => Base(Float(exclusive))
    case _ => Base(Float(FloatOrAtomic))
  }

  function ImmediateDoubleOp(inst: inst64): Opcode {
    match Funct3(inst)
    case 0 => Base(Wide(Addid))
    case 1 => if (inst >> 26) & 0x3F == 0 then Base(Wide(Sllid)) else Illegal
    case 5 => if (inst >> 26) & 0x3F == 0 then Base(Wide(Srlid))
      else if (inst >> 26) & 0x3F == 16 then Base(Wide(Sraid)) else Illegal
    case _ => Illegal
  }

  function BranchOp(inst: inst64): Opcode {
    match Funct3(inst)
    case 0 => Base(Beq)
    case 1 => Base(Bne)
    case 4 => Base(Blt)
    case 5 => Base(Bge)
    case 6 => Base(Bltu)
    case 7 => Base(Bgeu)
    case _ => Illegal
  }

  function SystemOp(inst: inst64): Opcode {
    match Funct3(inst)
    case 0 => PrivilegedOp(inst)
    case 1 => Base(Csrrw)
    case 2 => Base(Csrrs)
    case 3 => Base(Csrrc)
    case 5 => Base(Csrrwi)
    case 6 => Base(Csrrsi)
    case 7 => Base(Csrrci)
    case _ => Illegal
  }

  /** funct7 above the rd bits, and the rs2 and rs1 bits, of the privileged instructions. */
  function PrivilegedKey(inst: inst64): bv12 { (((inst >> 20) & 0xFE0) | ((inst >> 7) & 0x1F)) as bv12 }
  function LowTen(inst: inst64): bv10 { ((inst >> 15) & 0x3FF) as bv10 }
  function Rs2Bits(inst: inst64): bv5 { ((inst >> 20) & 0x1F) as bv5 }
  function Rs1Bits(inst: inst64): bv5 { ((inst >> 15) & 0x1F) as bv5 }

  function PrivilegedOp(inst: inst64): Opcode {
    match PrivilegedKey(inst)
    case 0 => if LowTen(inst) == 0 then Base(System(Ecall)) else if LowTen(inst) == 32 then Base(Ebreak)
      else if LowTen(inst) == 64 then Base(System(Uret)) else Illegal
    case 256 =>
      if Rs2Bits(inst) == 2 then (if Rs1Bits(inst) == 0 then Base(System(Sret)) else Illegal)
      else if Rs2Bits(inst) == 4 then Base(System(SfenceVm))
      else if Rs2Bits(inst) == 5 then (if Rs1Bits(inst) == 0 then Base(System(Wfi)) else Illegal)
      else Illegal
    case 288 => Base(System(SfenceVma))
    case 512 => if LowTen(inst) == 64 then Base(System(Hret)) else Illegal
    case 768 => if LowTen(inst) == 64 then Base(System(Mret)) else Illegal
    case 1952 => if LowTen(inst) == 576 then Base(System(Dret)) else Illegal
    case _ => Illegal
  }

  function RegisterDoubleOp(inst: inst64): Opcode {
    match Funct10(inst)
    case 0 => Base(Wide(Addd))
    case 1 => Base(Wide(Slld))
    case 5 => Base(Wide(Srld))
    case 8 => Base(Wide(Muld))
    case 12 => Base(Wide(Divd))
    case 13 => Base(Wide(Divud))
    case 14 => Base(Wide(Remd))
    case 15 => Base(Wide(Remud))
    case 256 => Base(Wide(Subd))
    case 261 => Base(Wide(Srad))
    case _ => Illegal
  }

  function Quadrant3(inst: inst64): Opcode {
    match Major(inst)
    case 0 => LoadOp(inst)
    case 1 => FloatLoadOp(inst)
    case 3 => MiscMemOp(inst)
    case 4 => ImmediateOp(inst)
    case 5 => Base(Auipc)
    case 6 => ImmediateWordOp(inst)
    case 8 => StoreOp(inst)
    case 9 => FloatStoreOp(inst)
    case 11 => Base(Float(FloatOrAtomic))
    case 12 => RegisterOp(inst)
    case 13 => Base(Lui)
    case 14 => RegisterWordOp(inst)
    case 16 => Base(Float(FloatOrAtomic))
    case 17 => Base(Float(FloatOrAtomic))
    case 18 => Base(Float(FloatOrAtomic))
    case 19 => Base(Float(FloatOrAtomic))
    case 20 => FloatOp(inst)
    case 22 => ImmediateDoubleOp(inst)
    case 24 => BranchOp(inst)
    case 25 => if Funct3(inst) == 0 then Base(Jalr) else Illegal
    case 27 => Base(Jal)
    case 28 => SystemOp(inst)
    case 30 => RegisterDoubleOp(inst)
    case _ => Illegal
  }

  /** decode_inst_opcode */
  function OpcodeOf(inst: inst64, isa: Isa): Opcode {
    match inst & 3
    case 0 => Quadrant0(inst, isa)
    case 1 => Quadrant1(inst, isa)
    case 2 => Quadrant2(inst, isa)
    case _ => Quadrant3(inst)
  }

  // ----- operand extractors

  type imm32 = bv32

  /** Right shift of an int64_t. */
  function Sar(v: bv64, n: bv7): bv64
    requires n < 64
  {
    if v >= 0x8000_0000_0000_0000 then !((!v) >> n) else v >> n
  }

  /** Conversion of a 64-bit value to int32_t or uint32_t. */
  function Low32(v: bv64): imm32 { (v & 0xFFFF_FFFF) as imm32 }

  /** A field of at most five bits, as the uint8_t it is kept in. */
  function Narrow(v: bv64): reg { (v & 0xFF) as reg }

  function OperandRd(inst: inst64): reg { Narrow((inst << 52) >> 59) }
  function OperandRs1(inst: inst64): reg { Narrow((inst << 44) >> 59) }
  function OperandRs2(inst: inst64): reg { Narrow((inst << 39) >> 59) }
  function OperandShamt5(inst: inst64): imm32 { Low32((inst << 39) >> 59) }
  function OperandShamt6(inst: inst64): imm32 { Low32((inst << 38) >> 58) }
  function OperandShamt7(inst: inst64): imm32 { Low32((inst << 37) >> 57) }
  /** A three-bit register field stands for x8 to x15. */
  function Short(field: reg): reg { field + 8 }

  function OperandCrdq(inst: inst64): reg { Narrow((inst << 59) >> 61) }
  function OperandCrs1q(inst: inst64): reg { Narrow((inst << 54) >> 61) }
  function OperandCrd(inst: inst64): reg { Narrow((inst << 52) >> 59) }
  function OperandCrs2(inst: inst64): reg { Narrow((inst << 57) >> 59) }
  function OperandCsr12(inst: inst64): imm32 { Low32((inst << 32) >> 52) }
  function OperandImm12(inst: inst64): imm32 { Low32(Sar(inst << 32, 52)) }
  function OperandImm20(inst: inst64): imm32 { Low32(Sar(inst << 32, 44) << 12) }

  function OperandJimm20(inst: inst64): imm32 {
    Low32((Sar(inst << 32, 63) << 20) | (((inst << 33) >> 54) << 1) | (((inst << 43) >> 63) << 11)
        | (((inst << 44) >> 56) << 12))
  }

  function OperandSimm12(inst: inst64): imm32 {
    Low32((Sar(inst << 32, 57) << 5) | ((inst << 52) >> 59))
  }

  function OperandSbimm12(inst: inst64): imm32 {
    Low32((Sar(inst << 32, 63) << 12) | (((inst << 33) >> 58) << 5) | (((inst << 52) >> 60) << 1)
        | (((inst << 56) >> 63) << 11))
  }

  function OperandCimmsh6(inst: inst64): imm32 {
    Low32((((inst << 51) >> 63) << 5) | ((inst << 57) >> 59))
  }

  function OperandCimmi(inst: inst64): imm32 {
    Low32((Sar(inst << 51, 63) << 5) | ((inst << 57) >> 59))
  }

  function OperandCimmui(inst: inst64): imm32 {
    Low32((Sar(inst << 51, 63) << 17) | (((inst << 57) >> 59) << 12))
  }

  function OperandCimmlwsp(inst: inst64): imm32 {
    Low32((((inst << 51) >> 63) << 5) | (((inst << 57) >> 61) << 2) | (((inst << 60) >> 62) << 6))
  }

  function OperandCimmldsp(inst: inst64): imm32 {
    Low32((((inst << 51) >> 63) << 5) | (((inst << 57) >> 62) << 3) | (((inst << 59) >> 61) << 6))
  }

  function OperandCimmlqsp(inst: inst64): imm32 {
    Low32((((inst << 51) >> 63) << 5) | (((inst << 57) >> 63) << 4) | (((inst << 58) >> 60) << 6))
  }

  function OperandCimm16sp(inst: inst64): imm32 {
    Low32((Sar(inst << 51, 63) << 9) | (((inst << 57) >> 63) << 4) | (((inst << 58) >> 63) << 6)
        | (((inst << 59) >> 62) << 7) | (((inst << 61) >> 63) << 5))
  }

  function OperandCimmj(inst: inst64): imm32 {
    Low32((Sar(inst << 51, 63) << 11) | (((inst << 52) >> 63) << 4) | (((inst << 53) >> 62) << 8)
        | (((inst << 55) >> 63) << 10) | (((inst << 56) >> 63) << 6) | (((inst << 57) >> 63) << 7)
        | (((inst << 58) >> 61) << 1) | (((inst << 61) >> 63) << 5))
  }

  function OperandCimmb(inst: inst64): imm32 {
    Low32((Sar(inst << 51, 63) << 8) | (((inst << 52) >> 62) << 3) | (((inst << 57) >> 62) << 6)
        | (((inst << 59) >> 62) << 1) | (((inst << 61) >> 63) << 5))
  }

  function OperandCimmswsp(inst: inst64): imm32 {
    Low32((((inst << 51) >> 60) << 2) | (((inst << 55) >> 62) << 6))
  }

  function OperandCimmsdsp(inst: inst64): imm32 {
    Low32((((inst << 51) >> 61) << 3) | (((inst << 54) >> 61) << 6))
  }

  function OperandCimmsqsp(inst: inst64): imm32 {
    Low32((((inst << 51) >> 62) << 4) | (((inst << 53) >> 60) << 6))
  }

  function OperandCimm4spn(inst: inst64): imm32 {
    Low32((((inst << 51) >> 62) << 4) | (((inst << 53) >> 60) << 6) | (((inst << 57) >> 63) << 2)
        | (((inst << 58) >> 63) << 3))
  }

  function OperandCimmw(inst: inst64): imm32 {
    Low32((((inst << 51) >> 61) << 3) | (((inst << 57) >> 63) << 2) | (((inst << 58) >> 63) << 6))
  }

  function OperandCimmd(inst: inst64): imm32 {
    Low32((((inst << 51) >> 61) << 3) | (((inst << 57) >> 62) << 6))
  }

  function OperandCimmq(inst: inst64): imm32 {
    Low32((((inst << 51) >> 62) << 4) | (((inst << 53) >> 63) << 8) | (((inst << 57) >> 62) << 6))
  }

  // ----- decode_inst_operands

  datatype Fields = Fields(rd: reg, rs1: reg, rs2: reg, imm: imm32)

  /** The operand fields a codec extracts; prior is what the struct held, kept by a codec without a case. */
  function OperandsOf(inst: inst64, codec: Codec, prior: Fields): Fields {
    match codec
    case CodecNone | RF => Fields(ZERO, ZERO, ZERO, 0)
    case U => Fields(OperandRd(inst), ZERO, ZERO, OperandImm20(inst))
    case UJ => Fields(OperandRd(inst), ZERO, ZERO, OperandJimm20(inst))
    case I => Fields(OperandRd(inst), OperandRs1(inst), ZERO, OperandImm12(inst))
    case ISh5 => Fields(OperandRd(inst), OperandRs1(inst), ZERO, OperandShamt5(inst))
    case ISh6 => Fields(OperandRd(inst), OperandRs1(inst), ZERO, OperandShamt6(inst))
    case ISh7 => Fields(OperandRd(inst), OperandRs1(inst), ZERO, OperandShamt7(inst))
    case ICsr => Fields(OperandRd(inst), OperandRs1(inst), ZERO, OperandCsr12(inst))
    case S => Fields(ZERO, OperandRs1(inst), OperandRs2(inst), OperandSimm12(inst))
    case SB => Fields(ZERO, OperandRs1(inst), OperandRs2(inst), OperandSbimm12(inst))
    case R => Fields(OperandRd(inst), OperandRs1(inst), OperandRs2(inst), 0)
    case Compact(c) => CompactOperandsOf(inst, c)
    case CodecIllegal | FloatOrAtomicCodec => prior
  }

  function CompactOperandsOf(inst: inst64, codec: CompactCodec): Fields {
    match codec
    case CINone => Fields(ZERO, ZERO, ZERO, 0)
    case CB => Fields(ZERO, Short(OperandCrs1q(inst)), ZERO, OperandCimmb(inst))
    case CBImm => Fields(Short(OperandCrs1q(inst)), Short(OperandCrs1q(inst)), ZERO, OperandCimmi(inst))
    case CBSh6 => Fields(Short(OperandCrs1q(inst)), Short(OperandCrs1q(inst)), ZERO, OperandCimmsh6(inst))
    case CI => Fields(OperandCrd(inst), OperandCrd(inst), ZERO, OperandCimmi(inst))
    case CISh6 => Fields(OperandCrd(inst), OperandCrd(inst), ZERO, OperandCimmsh6(inst))
    case CI16sp => Fields(SP, SP, ZERO, OperandCimm16sp(inst))
    case CILwsp => Fields(OperandCrd(inst), SP, ZERO, OperandCimmlwsp(inst))
    case CILdsp => Fields(OperandCrd(inst), SP, ZERO, OperandCimmldsp(inst))
    case CILqsp => Fields(OperandCrd(inst), SP, ZERO, OperandCimmlqsp(inst))
    case CILi => Fields(OperandCrd(inst), ZERO, ZERO, OperandCimmi(inst))
    case CILui => Fields(OperandCrd(inst), ZERO, ZERO, OperandCimmui(inst))
    case CIW4spn => Fields(Short(OperandCrdq(inst)), SP, ZERO, OperandCimm4spn(inst))
    case CJ_ => Fields(ZERO, ZERO, ZERO, OperandCimmj(inst))
    case CJJal => Fields(RA, ZERO, ZERO, OperandCimmj(inst))
    case CLLw => Fields(Short(OperandCrdq(inst)), Short(OperandCrs1q(inst)), ZERO, OperandCimmw(inst))
    case CLLd => Fields(Short(OperandCrdq(inst)), Short(OperandCrs1q(inst)), ZERO, OperandCimmd(inst))
    case CLLq => Fields(Short(OperandCrdq(inst)), Short(OperandCrs1q(inst)), ZERO, OperandCimmq(inst))
    case CR => Fields(OperandCrd(inst), OperandCrd(inst), OperandCrs2(inst), 0)
    case CRMv => Fields(OperandCrd(inst), OperandCrs2(inst), ZERO, 0)
    case CRJalr => Fields(RA, OperandCrd(inst), ZERO, 0)
    case CRJr => Fields(ZERO, OperandCrd(inst), ZERO, 0)
    case CS => Fields(Short(OperandCrs1q(inst)), Short(OperandCrs1q(inst)), Short(OperandCrdq(inst)), 0)
    case CSSw => Fields(ZERO, Short(OperandCrs1q(inst)), Short(OperandCrdq(inst)), OperandCimmw(inst))
    case CSSd => Fields(ZERO, Short(OperandCrs1q(inst)), Short(OperandCrdq(inst)), OperandCimmd(inst))
    case CSSq => Fields(ZERO, Short(OperandCrs1q(inst)), Short(OperandCrdq(inst)), OperandCimmq(inst))
    case CSSSwsp => Fields(ZERO, SP, OperandCrs2(inst), OperandCimmswsp(inst))
    case CSSSdsp => Fields(ZERO, SP, OperandCrs2(inst), OperandCimmsdsp(inst))
    case CSSSqsp => Fields(ZERO, SP, OperandCrs2(inst), OperandCimmsqsp(inst))
  }
}
