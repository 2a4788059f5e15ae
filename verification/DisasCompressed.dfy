/** decode_inst_decompress, and why the base instruction it leaves does what the compressed one means. */
module DisasCompressed {
  import A = Alu
  import H = HartSpec
  import C = CompressedSpec
  import opened FlatMemory
  import opened Architecture
  import opened DisasMeaning
  import opened DisasTables
  import opened DisasDecode

  /** decode_inst_decompress, as a function of the opcode and immediate decoded before. */
  function Decompress(op: Opcode, imm: imm32, isa: Isa): Opcode {
    if !op.Compressed? || DecompressedOp(op.comp, isa) == Illegal then op
    else if NeedsNonZero(op.comp) && imm == 0 then Illegal
    else DecompressedOp(op.comp, isa)
  }

  /** The opcode after decoding and decompression. */
  function Expanded(inst: inst64, isa: Isa, prior: Fields): Opcode {
    var op := OpcodeOf(inst, isa);
    Decompress(op, OperandsOf(inst, CodecOf(op), prior).imm, isa)
  }

  // ----- no compressed opcode survives

  lemma FullLengthNotCompressed(inst: inst64)
    ensures !Quadrant3(inst).Compressed?
  {
  }

  /** Of the opcodes an instruction word can decode to, those that are compressed have a full-length target on this
      ISA. */
  predicate HasTarget(op: Opcode, isa: Isa) {
    op.Compressed? ==> DecompressedOp(op.comp, isa) != Illegal
  }

  lemma TargetsAreFullLength(op: CompressedOp, isa: Isa)
    ensures !DecompressedOp(op, isa).Compressed?
  {
  }

  lemma Quadrant0HasTarget(inst: inst64, isa: Isa)
    ensures HasTarget(Quadrant0(inst, isa), isa)
  {
  }

  lemma Quadrant1HasTarget(inst: inst64, isa: Isa)
    ensures HasTarget(Quadrant1(inst, isa), isa)
  {
  }

  lemma Quadrant2HasTarget(inst: inst64, isa: Isa)
    ensures HasTarget(Quadrant2(inst, isa), isa)
  {
  }

  /** For all three ISAs and every instruction word, decompression leaves no compressed opcode. */
  lemma NoCompressedOpcodeSurvives(inst: inst64, isa: Isa, imm: imm32)
    ensures !Decompress(OpcodeOf(inst, isa), imm, isa).Compressed?
  {
    hide Quadrant0, Quadrant1, Quadrant2, Quadrant3, DecompressedOp, NeedsNonZero;
    FullLengthNotCompressed(inst);
    Quadrant0HasTarget(inst, isa);
    Quadrant1HasTarget(inst, isa);
    Quadrant2HasTarget(inst, isa);
    if OpcodeOf(inst, isa).Compressed? {
      TargetsAreFullLength(OpcodeOf(inst, isa).comp, isa);
    }
  }

  // ----- the operand extractors pick the bits chapter 16 names

  lemma RegisterFields(inst: inst64)
    ensures Short(OperandCrdq(inst)) == C.Reg3(inst, 2) && Short(OperandCrs1q(inst)) == C.Reg3(inst, 7)
    ensures OperandCrd(inst) == C.Reg5(inst, 7) && OperandCrs2(inst) == C.Reg5(inst, 2)
  {
  }

  lemma Immediate4spn(inst: inst64)
    ensures OperandCimm4spn(inst) == C.Imm4spn(inst)
  {
  }

  lemma ImmediateW(inst: inst64)
    ensures OperandCimmw(inst) == C.ImmW(inst)
  {
  }

  lemma ImmediateLwsp(inst: inst64)
    ensures OperandCimmlwsp(inst) == C.ImmLwsp(inst)
  {
  }

  lemma ImmediateSwsp(inst: inst64)
    ensures OperandCimmswsp(inst) == C.ImmSwsp(inst)
  {
  }

  lemma ImmediateShamt(inst: inst64)
    ensures OperandCimmsh6(inst) == C.Shamt(inst)
  {
  }

  lemma SignedImmediate6(inst: inst64)
    ensures OperandCimmi(inst) == C.Imm6(inst)
  {
  }

  lemma SignedImmediateLui(inst: inst64)
    ensures OperandCimmui(inst) == C.ImmLui(inst)
  {
  }

  lemma SignedImmediate16sp(inst: inst64)
    ensures OperandCimm16sp(inst) == C.Imm16sp(inst)
  {
  }

  lemma SignedImmediateJ(inst: inst64)
    ensures OperandCimmj(inst) == C.ImmJ(inst)
  {
  }

  lemma SignedImmediateB(inst: inst64)
    ensures OperandCimmb(inst) == C.ImmB(inst)
  {
  }

  // ----- what a compressed word expands to

  /** The base instruction chapter 16 gives as the expansion (mv expands to addi here, with the same effect). */
  function Expansion(i: C.Instruction): (BaseOp, Fields) {
    match i
    case Addi4spn(rd, imm) => (Addi, Fields(rd, SP, 0, imm))
    case Lw(rd, rs1, imm) => (Lw, Fields(rd, rs1, 0, imm))
    case Sw(rs2, rs1, imm) => (Sw, Fields(0, rs1, rs2, imm))
    case Addi(rd, imm) => (Addi, Fields(rd, rd, 0, imm))
    case Jal(imm) => (Jal, Fields(RA, 0, 0, imm))
    case Li(rd, imm) => (Addi, Fields(rd, 0, 0, imm))
    case Addi16sp(imm) => (Addi, Fields(SP, SP, 0, imm))
    case Lui(rd, imm) => (Lui, Fields(rd, 0, 0, imm))
    case Srli(rd, imm) => (Srli, Fields(rd, rd, 0, imm))
    case Srai(rd, imm) => (Srai, Fields(rd, rd, 0, imm))
    case Andi(rd, imm) => (Andi, Fields(rd, rd, 0, imm))
    case Sub(rd, rs2) => (Sub, Fields(rd, rd, rs2, 0))
    case Xor(rd, rs2) => (Xor, Fields(rd, rd, rs2, 0))
    case Or(rd, rs2) => (Or, Fields(rd, rd, rs2, 0))
    case And(rd, rs2) => (And, Fields(rd, rd, rs2, 0))
    case J(imm) => (Jal, Fields(0, 0, 0, imm))
    case Beqz(rs1, imm) => (Beq, Fields(0, rs1, 0, imm))
    case Bnez(rs1, imm) => (Bne, Fields(0, rs1, 0, imm))
    case Slli(rd, imm) => (Slli, Fields(rd, rd, 0, imm))
    case Lwsp(rd, imm) => (Lw, Fields(rd, SP, 0, imm))
    case Jr(rs1) => (Jalr, Fields(0, rs1, 0, 0))
    case Mv(rd, rs2) => (Addi, Fields(rd, rs2, 0, 0))
    case Ebreak => (Ebreak, Fields(0, 0, 0, 0))
    case Jalr(rs1) => (Jalr, Fields(RA, rs1, 0, 0))
    case Add(rd, rs2) => (Add, Fields(rd, rd, rs2, 0))
    case Swsp(rs2, imm) => (Sw, Fields(0, SP, rs2, imm))
  }

  /** The instructions the table marks illegal although chapter 16 gives them a meaning. */
  predicate MarkedIllegal(i: C.Instruction) {
    (i.Andi? || i.Srli? || i.Srai? || i.Slli?) && i.imm == 0
  }

  /** What the pipeline makes of the word: these operand fields, and this opcode unless the table marks it illegal. */
  predicate ExpandsTo(inst: inst64, op: Opcode, i: C.Instruction, prior: Fields) {
    && OperandsOf(inst, CodecOf(op), prior) == Expansion(i).1
    && Decompress(op, Expansion(i).1.imm, Rv32) == (if MarkedIllegal(i) then Illegal else Base(Expansion(i).0))
  }

  lemma Addi4spnExpands(inst: inst64, prior: Fields)
    requires C.Imm4spn(inst) != 0
    ensures ExpandsTo(inst, Compressed(CAddi4spn), C.Addi4spn(C.Reg3(inst, 2), C.Imm4spn(inst)), prior)
  {
    hide Short, OperandCrdq, OperandCrs1q, OperandCrd, OperandCrs2, C.Reg3, C.Reg5, OperandCimm4spn, C.Imm4spn;
    RegisterFields(inst);
    Immediate4spn(inst);
  }

  lemma LwExpands(inst: inst64, prior: Fields)
    ensures ExpandsTo(inst, Compressed(CLw), C.Lw(C.Reg3(inst, 2), C.Reg3(inst, 7), C.ImmW(inst)), prior)
  {
    hide Short, OperandCrdq, OperandCrs1q, OperandCrd, OperandCrs2, C.Reg3, C.Reg5, OperandCimmw, C.ImmW;
    RegisterFields(inst);
    ImmediateW(inst);
  }

  lemma SwExpands(inst: inst64, prior: Fields)
    ensures ExpandsTo(inst, Compressed(CSw), C.Sw(C.Reg3(inst, 2), C.Reg3(inst, 7), C.ImmW(inst)), prior)
  {
    hide Short, OperandCrdq, OperandCrs1q, OperandCrd, OperandCrs2, C.Reg3, C.Reg5, OperandCimmw, C.ImmW;
    RegisterFields(inst);
    ImmediateW(inst);
  }

  lemma AddiExpands(inst: inst64, prior: Fields)
    ensures ExpandsTo(inst, Compressed(CAddi), C.Addi(C.Reg5(inst, 7), C.Imm6(inst)), prior)
  {
    hide Short, OperandCrdq, OperandCrs1q, OperandCrd, OperandCrs2, C.Reg3, C.Reg5, OperandCimmi, C.Imm6;
    RegisterFields(inst);
    SignedImmediate6(inst);
  }

  lemma JalExpands(inst: inst64, prior: Fields)
    ensures ExpandsTo(inst, Compressed(CJal), C.Jal(C.ImmJ(inst)), prior)
  {
    hide Short, OperandCrdq, OperandCrs1q, OperandCrd, OperandCrs2, C.Reg3, C.Reg5, OperandCimmj, C.ImmJ;
    RegisterFields(inst);
    SignedImmediateJ(inst);
  }

  lemma LiExpands(inst: inst64, prior: Fields)
    ensures ExpandsTo(inst, Compressed(CLi), C.Li(C.Reg5(inst, 7), C.Imm6(inst)), prior)
  {
    hide Short, OperandCrdq, OperandCrs1q, OperandCrd, OperandCrs2, C.Reg3, C.Reg5, OperandCimmi, C.Imm6;
    RegisterFields(inst);
    SignedImmediate6(inst);
  }

  lemma Addi16spExpands(inst: inst64, prior: Fields)
    requires C.Imm16sp(inst) != 0
    ensures ExpandsTo(inst, Compressed(CAddi16sp), C.Addi16sp(C.Imm16sp(inst)), prior)
  {
    hide Short, OperandCrdq, OperandCrs1q, OperandCrd, OperandCrs2, C.Reg3, C.Reg5, OperandCimm16sp, C.Imm16sp;
    RegisterFields(inst);
    SignedImmediate16sp(inst);
  }

  lemma LuiExpands(inst: inst64, prior: Fields)
    requires C.ImmLui(inst) != 0
    ensures ExpandsTo(inst, Compressed(CLui), C.Lui(C.Reg5(inst, 7), C.ImmLui(inst)), prior)
  {
    hide Short, OperandCrdq, OperandCrs1q, OperandCrd, OperandCrs2, C.Reg3, C.Reg5, OperandCimmui, C.ImmLui;
    RegisterFields(inst);
    SignedImmediateLui(inst);
  }

  lemma SrliExpands(inst: inst64, prior: Fields)
    ensures ExpandsTo(inst, Compressed(CSrli), C.Srli(C.Reg3(inst, 7), C.Shamt(inst)), prior)
  {
    hide Short, OperandCrdq, OperandCrs1q, OperandCrd, OperandCrs2, C.Reg3, C.Reg5, OperandCimmsh6, C.Shamt;
    RegisterFields(inst);
    ImmediateShamt(inst);
  }

  lemma SraiExpands(inst: inst64, prior: Fields)
    ensures ExpandsTo(inst, Compressed(CSrai), C.Srai(C.Reg3(inst, 7), C.Shamt(inst)), prior)
  {
    hide Short, OperandCrdq, OperandCrs1q, OperandCrd, OperandCrs2, C.Reg3, C.Reg5, OperandCimmsh6, C.Shamt;
    RegisterFields(inst);
    ImmediateShamt(inst);
  }

  lemma AndiExpands(inst: inst64, prior: Fields)
    ensures ExpandsTo(inst, Compressed(CAndi), C.Andi(C.Reg3(inst, 7), C.Imm6(inst)), prior)
  {
    hide Short, OperandCrdq, OperandCrs1q, OperandCrd, OperandCrs2, C.Reg3, C.Reg5, OperandCimmi, C.Imm6;
    RegisterFields(inst);
    SignedImmediate6(inst);
  }

  lemma JExpands(inst: inst64, prior: Fields)
    ensures ExpandsTo(inst, Compressed(CJ), C.J(C.ImmJ(inst)), prior)
  {
    hide Short, OperandCrdq, OperandCrs1q, OperandCrd, OperandCrs2, C.Reg3, C.Reg5, OperandCimmj, C.ImmJ;
    RegisterFields(inst);
    SignedImmediateJ(inst);
  }

  lemma BeqzExpands(inst: inst64, prior: Fields)
    ensures ExpandsTo(inst, Compressed(CBeqz), C.Beqz(C.Reg3(inst, 7), C.ImmB(inst)), prior)
  {
    hide Short, OperandCrdq, OperandCrs1q, OperandCrd, OperandCrs2, C.Reg3, C.Reg5, OperandCimmb, C.ImmB;
    RegisterFields(inst);
    SignedImmediateB(inst);
  }

  lemma BnezExpands(inst: inst64, prior: Fields)
    ensures ExpandsTo(inst, Compressed(CBnez), C.Bnez(C.Reg3(inst, 7), C.ImmB(inst)), prior)
  {
    hide Short, OperandCrdq, OperandCrs1q, OperandCrd, OperandCrs2, C.Reg3, C.Reg5, OperandCimmb, C.ImmB;
    RegisterFields(inst);
    SignedImmediateB(inst);
  }

  lemma SlliExpands(inst: inst64, prior: Fields)
    ensures ExpandsTo(inst, Compressed(CSlli), C.Slli(C.Reg5(inst, 7), C.Shamt(inst)), prior)
  {
    hide Short, OperandCrdq, OperandCrs1q, OperandCrd, OperandCrs2, C.Reg3, C.Reg5, OperandCimmsh6, C.Shamt;
    RegisterFields(inst);
    ImmediateShamt(inst);
  }

  lemma LwspExpands(inst: inst64, prior: Fields)
    ensures ExpandsTo(inst, Compressed(CLwsp), C.Lwsp(C.Reg5(inst, 7), C.ImmLwsp(inst)), prior)
  {
    hide Short, OperandCrdq, OperandCrs1q, OperandCrd, OperandCrs2, C.Reg3, C.Reg5, OperandCimmlwsp, C.ImmLwsp;
    RegisterFields(inst);
    ImmediateLwsp(inst);
  }

  lemma SwspExpands(inst: inst64, prior: Fields)
    ensures ExpandsTo(inst, Compressed(CSwsp), C.Swsp(C.Reg5(inst, 2), C.ImmSwsp(inst)), prior)
  {
    hide Short, OperandCrdq, OperandCrs1q, OperandCrd, OperandCrs2, C.Reg3, C.Reg5, OperandCimmswsp, C.ImmSwsp;
    RegisterFields(inst);
    ImmediateSwsp(inst);
  }

  lemma SubExpands(inst: inst64, prior: Fields)
    ensures ExpandsTo(inst, Compressed(CSub), C.Sub(C.Reg3(inst, 7), C.Reg3(inst, 2)), prior)
  {
    hide Short, OperandCrdq, OperandCrs1q, OperandCrd, OperandCrs2, C.Reg3, C.Reg5;
    RegisterFields(inst);
  }

  lemma XorExpands(inst: inst64, prior: Fields)
    ensures ExpandsTo(inst, Compressed(CXor), C.Xor(C.Reg3(inst, 7), C.Reg3(inst, 2)), prior)
  {
    hide Short, OperandCrdq, OperandCrs1q, OperandCrd, OperandCrs2, C.Reg3, C.Reg5;
    RegisterFields(inst);
  }

  lemma OrExpands(inst: inst64, prior: Fields)
    ensures ExpandsTo(inst, Compressed(COr), C.Or(C.Reg3(inst, 7), C.Reg3(inst, 2)), prior)
  {
    hide Short, OperandCrdq, OperandCrs1q, OperandCrd, OperandCrs2, C.Reg3, C.Reg5;
    RegisterFields(inst);
  }

  lemma AndExpands(inst: inst64, prior: Fields)
    ensures ExpandsTo(inst, Compressed(CAnd), C.And(C.Reg3(inst, 7), C.Reg3(inst, 2)), prior)
  {
    hide Short, OperandCrdq, OperandCrs1q, OperandCrd, OperandCrs2, C.Reg3, C.Reg5;
    RegisterFields(inst);
  }

  lemma MvExpands(inst: inst64, prior: Fields)
    ensures ExpandsTo(inst, Compressed(CMv), C.Mv(C.Reg5(inst, 7), C.Reg5(inst, 2)), prior)
  {
    hide Short, OperandCrdq, OperandCrs1q, OperandCrd, OperandCrs2, C.Reg3, C.Reg5;
    RegisterFields(inst);
  }

  lemma JrExpands(inst: inst64, prior: Fields)
    ensures ExpandsTo(inst, Compressed(CJr), C.Jr(C.Reg5(inst, 7)), prior)
  {
    hide Short, OperandCrdq, OperandCrs1q, OperandCrd, OperandCrs2, C.Reg3, C.Reg5;
    RegisterFields(inst);
  }

  lemma AddExpands(inst: inst64, prior: Fields)
    ensures ExpandsTo(inst, Compressed(CAdd), C.Add(C.Reg5(inst, 7), C.Reg5(inst, 2)), prior)
  {
    hide Short, OperandCrdq, OperandCrs1q, OperandCrd, OperandCrs2, C.Reg3, C.Reg5;
    RegisterFields(inst);
  }

  lemma JalrExpands(inst: inst64, prior: Fields)
    ensures ExpandsTo(inst, Compressed(CJalr), C.Jalr(C.Reg5(inst, 7)), prior)
  {
    hide Short, OperandCrdq, OperandCrs1q, OperandCrd, OperandCrs2, C.Reg3, C.Reg5;
    RegisterFields(inst);
  }

  lemma EbreakExpands(inst: inst64, prior: Fields)
    ensures ExpandsTo(inst, Compressed(CEbreak), C.Ebreak, prior)
  {
    hide Short, OperandCrdq, OperandCrs1q, OperandCrd, OperandCrs2, C.Reg3, C.Reg5;
    RegisterFields(inst);
  }

  /** The all-zero addi is decoded as c.nop, with the same fields. */
  lemma NopExpands(inst: inst64, prior: Fields)
    requires C.Reg5(inst, 7) == 0 && C.Imm6(inst) == 0
    ensures ExpandsTo(inst, Compressed(CNop), C.Addi(C.Reg5(inst, 7), C.Imm6(inst)), prior)
  {
    hide C.Reg5, C.Imm6;
  }

  lemma Quadrant0Expands(inst: inst64, i: C.Instruction, prior: Fields)
    requires C.Decode0(inst) == C.Some(i)
    ensures ExpandsTo(inst, Quadrant0(inst, Rv32), i, prior)
  {
    hide ExpandsTo, C.Reg3, C.Imm4spn, C.ImmW;
    match (inst >> 13) & 7 {
      case 0 => Addi4spnExpands(inst, prior);
      case 2 => LwExpands(inst, prior);
      case 6 => SwExpands(inst, prior);
      case _ =>
    }
  }

  lemma NopBits(inst: inst64)
    ensures (inst >> 2) & 0x7FF == 0 <==> C.Reg5(inst, 7) == 0 && C.Imm6(inst) == 0
    ensures (inst >> 7) & 0x1F == 2 <==> C.Reg5(inst, 7) == 2
  {
  }

  lemma Quadrant1Expands(inst: inst64, i: C.Instruction, prior: Fields)
    requires C.Decode1(inst) == C.Some(i)
    ensures ExpandsTo(inst, Quadrant1(inst, Rv32), i, prior)
  {
    hide ExpandsTo, Quadrant1Alu, C.DecodeAlu, C.Reg5, C.Reg3, C.Imm6, C.ImmJ, C.ImmB, C.Imm16sp, C.ImmLui;
    NopBits(inst);
    match (inst >> 13) & 7 {
      case 0 =>
        if (inst >> 2) & 0x7FF == 0 {
          NopExpands(inst, prior);
        } else {
          AddiExpands(inst, prior);
        }
      case 1 => JalExpands(inst, prior);
      case 2 => LiExpands(inst, prior);
      case 3 =>
        if C.Reg5(inst, 7) == 2 {
          Addi16spExpands(inst, prior);
        } else {
          LuiExpands(inst, prior);
        }
      case 4 => Quadrant1AluExpands(inst, i, prior);
      case 5 => JExpands(inst, prior);
      case 6 => BeqzExpands(inst, prior);
      case _ => BnezExpands(inst, prior);
    }
  }

  lemma Quadrant1AluExpands(inst: inst64, i: C.Instruction, prior: Fields)
    requires C.DecodeAlu(inst) == C.Some(i)
    ensures ExpandsTo(inst, Quadrant1Alu(inst), i, prior)
  {
    hide ExpandsTo, C.Reg3, C.Imm6, C.Shamt;
    match (inst >> 10) & 3 {
      case 0 => SrliExpands(inst, prior);
      case 1 => SraiExpands(inst, prior);
      case 2 => AndiExpands(inst, prior);
      case _ =>
        AluKey(inst);
        SubExpands(inst, prior);
        XorExpands(inst, prior);
        OrExpands(inst, prior);
        AndExpands(inst, prior);
    }
  }

  /** The combined key of the register-register switch, when bit 12 is clear. */
  lemma AluKey(inst: inst64)
    ensures (inst >> 12) & 1 == 0 ==> ((inst >> 10) & 4) | ((inst >> 5) & 3) == (inst >> 5) & 3
    ensures (inst >> 12) & 1 == 0 || (inst >> 12) & 1 == 1
  {
  }

  lemma Quadrant2Expands(inst: inst64, i: C.Instruction, prior: Fields)
    requires C.Decode2(inst) == C.Some(i)
    ensures ExpandsTo(inst, Quadrant2(inst, Rv32), i, prior)
  {
    hide ExpandsTo, Quadrant2Register, C.DecodeRegister, C.Reg5, C.Shamt, C.ImmLwsp, C.ImmSwsp;
    match (inst >> 13) & 7 {
      case 0 => SlliExpands(inst, prior);
      case 2 => LwspExpands(inst, prior);
      case 4 => Quadrant2RegisterExpands(inst, i, prior);
      case 6 => SwspExpands(inst, prior);
      case _ =>
    }
  }

  lemma RegisterBits(inst: inst64)
    ensures (inst >> 2) & 0x1F == 0 <==> C.Reg5(inst, 2) == 0
    ensures (inst >> 7) & 0x1F == 0 <==> C.Reg5(inst, 7) == 0
  {
  }

  lemma Quadrant2RegisterExpands(inst: inst64, i: C.Instruction, prior: Fields)
    requires C.DecodeRegister(inst) == C.Some(i)
    ensures ExpandsTo(inst, Quadrant2Register(inst), i, prior)
  {
    hide ExpandsTo, C.Reg5;
    RegisterBits(inst);
    MvExpands(inst, prior);
    JrExpands(inst, prior);
    AddExpands(inst, prior);
    JalrExpands(inst, prior);
    EbreakExpands(inst, prior);
  }

  /** Every RV32 integer compressed word is expanded to the base instruction chapter 16 names, with its operands;
      the words marked illegal are exactly those of MarkedIllegal. */
  lemma WordExpands(inst: inst64, i: C.Instruction, prior: Fields)
    requires C.Decode(inst) == C.Some(i)
    ensures ExpandsTo(inst, OpcodeOf(inst, Rv32), i, prior)
    ensures Expanded(inst, Rv32, prior) == if MarkedIllegal(i) then Illegal else Base(Expansion(i).0)
  {
    hide Quadrant0, Quadrant1, Quadrant2, Quadrant3, C.Decode0, C.Decode1, C.Decode2, Decompress, OperandsOf, CodecOf,
      Expansion, MarkedIllegal;
    match inst & 3 {
      case 0 => Quadrant0Expands(inst, i, prior);
      case 1 => Quadrant1Expands(inst, i, prior);
      case 2 => Quadrant2Expands(inst, i, prior);
      case _ =>
    }
  }

  // ----- meaning

  lemma ImmediateKinds()
    ensures KindOf(Addi) == WithImmediate(A.Add) && KindOf(Andi) == WithImmediate(A.And) && KindOf(Lui) == LoadUpper
    ensures KindOf(Slli) == WithImmediate(A.Sll) && KindOf(Srli) == WithImmediate(A.Srl)
        && KindOf(Srai) == WithImmediate(A.Sra)
  {
  }

  lemma RegisterKinds()
    ensures KindOf(Add) == WithRegister(A.Add) && KindOf(Sub) == WithRegister(A.Sub)
        && KindOf(Xor) == WithRegister(A.Xor)
    ensures KindOf(Or) == WithRegister(A.Or) && KindOf(And) == WithRegister(A.And)
  {
  }

  lemma MemoryKinds()
    ensures KindOf(Lw) == Loads(H.Lw) && KindOf(Sw) == StoresTo(H.Sw)
    ensures KindOf(Beq) == Branches(H.Beq) && KindOf(Bne) == Branches(H.Bne)
    ensures KindOf(Jal) == JumpAndLink && KindOf(Jalr) == JumpRegister && KindOf(Ebreak) == Break
  {
  }

  lemma AddEffect(s: Arch, rd: reg, a: word, b: word)
    ensures AluEffect(s, A.Add, rd, a, b, 2) == Write(s, rd, H.Forward(a, b), 2)
  {
    hide A.Word, A.Value, A.Signed, A.ShiftLeft, A.ShiftRight, A.ShiftRightArithmetic, Write;
  }

  lemma SubEffect(s: Arch, rd: reg, a: word, b: word)
    ensures AluEffect(s, A.Sub, rd, a, b, 2) == Write(s, rd, C.Difference(a, b), 2)
  {
    hide A.Word, A.Value, A.Signed, A.ShiftLeft, A.ShiftRight, A.ShiftRightArithmetic, Write;
  }

  lemma AndEffect(s: Arch, rd: reg, a: word, b: word)
    ensures AluEffect(s, A.And, rd, a, b, 2) == Write(s, rd, C.Both(a, b), 2)
  {
    hide A.Word, A.Value, A.Signed, A.ShiftLeft, A.ShiftRight, A.ShiftRightArithmetic, Write;
  }

  lemma XorEffect(s: Arch, rd: reg, a: word, b: word)
    ensures AluEffect(s, A.Xor, rd, a, b, 2) == Write(s, rd, C.Exclusive(a, b), 2)
  {
    hide A.Word, A.Value, A.Signed, A.ShiftLeft, A.ShiftRight, A.ShiftRightArithmetic, Write;
  }

  lemma OrEffect(s: Arch, rd: reg, a: word, b: word)
    ensures AluEffect(s, A.Or, rd, a, b, 2) == Write(s, rd, C.Either(a, b), 2)
  {
    hide A.Word, A.Value, A.Signed, A.ShiftLeft, A.ShiftRight, A.ShiftRightArithmetic, Write;
  }

  lemma SllEffect(s: Arch, rd: reg, a: word, b: word)
    ensures C.ShiftDefined(b) ==> AluEffect(s, A.Sll, rd, a, b, 2) == Write(s, rd, A.ShiftLeft(a, b), 2)
    ensures !C.ShiftDefined(b) ==> AluEffect(s, A.Sll, rd, a, b, 2) == NotModelled
  {
    hide A.Word, A.Value, A.Signed, A.ShiftLeft, A.ShiftRight, A.ShiftRightArithmetic, Write, H.Forward;
  }

  lemma SrlEffect(s: Arch, rd: reg, a: word, b: word)
    ensures C.ShiftDefined(b) ==> AluEffect(s, A.Srl, rd, a, b, 2) == Write(s, rd, A.ShiftRight(a, b), 2)
    ensures !C.ShiftDefined(b) ==> AluEffect(s, A.Srl, rd, a, b, 2) == NotModelled
  {
    hide A.Word, A.Value, A.Signed, A.ShiftLeft, A.ShiftRight, A.ShiftRightArithmetic, Write, H.Forward;
  }

  lemma SraEffect(s: Arch, rd: reg, a: word, b: word)
    ensures C.ShiftDefined(b) ==> AluEffect(s, A.Sra, rd, a, b, 2) == Write(s, rd, A.ShiftRightArithmetic(a, b), 2)
    ensures !C.ShiftDefined(b) ==> AluEffect(s, A.Sra, rd, a, b, 2) == NotModelled
  {
    hide A.Word, A.Value, A.Signed, A.ShiftLeft, A.ShiftRight, A.ShiftRightArithmetic, Write, H.Forward;
  }

  lemma JalValue(a: word, b: word)
    ensures A.DoAlu(A.Jal, a, b) == H.Forward(a, b)
  {
    hide A.Word, A.Value, A.Signed;
  }

  lemma JumpValue(a: word)
    ensures A.DoAlu(A.Jalr, a, 0) == A.Even(a)
  {
    hide A.Word, A.Value, A.Signed;
  }

  lemma BranchValue(a: word, b: word)
    requires b == 0
    ensures H.ShouldBranch(a, b, H.Beq) == C.IsZero(a)
    ensures H.ShouldBranch(a, b, H.Bne) == !C.IsZero(a)
  {
    hide A.Signed;
  }

  /** x0 reads as zero and a write to it changes nothing. */
  lemma ZeroRegister(s: Arch, imm: bv32, target: bv32)
    requires ZeroHardwired(s)
    ensures X(s, 0) == 0 && H.Forward(X(s, 0), imm) == imm
    ensures Jump(s, 0, target, 2) == Next(s.(pc := target))
  {
  }

  lemma StoreForm(s: Arch, address: bv32, v: bv32)
    ensures Next(Arch(s.x, H.Forward(s.pc, 2), H.StoreValue(s.mem, H.Sw, H.At(address), v))) == C.Stores(s, address, v)
  {
    hide H.StoreWord, H.At, H.Forward;
  }

  lemma PlusZero(a: bv32)
    ensures H.Forward(a, 0) == a
  {
  }

  /** Executing the expansion has the effect chapter 16 gives the compressed instruction. */
  predicate SameEffect(i: C.Instruction, s: Arch) {
    Execute(Expansion(i).0, Expansion(i).1, 2, s) == C.Meaning(i, s)
  }

  lemma AddMeaning(i: C.Instruction, s: Arch)
    requires i.Addi4spn? || i.Addi? || i.Addi16sp?
    ensures SameEffect(i, s)
  {
    hide KindOf, AluEffect, Write, Jump, Branch, X, A.DoAlu, A.Even, H.Forward, H.ShouldBranch, C.Stores;
    ImmediateKinds();
    match i {
      case Addi4spn(rd, imm) => AddEffect(s, rd, X(s, SP), imm);
      case Addi(rd, imm) => AddEffect(s, rd, X(s, rd), imm);
      case Addi16sp(imm) => AddEffect(s, SP, X(s, SP), imm);
    }
  }

  lemma ConstantMeaning(i: C.Instruction, s: Arch)
    requires ZeroHardwired(s)
    requires i.Li? || i.Mv? || i.Lui?
    ensures SameEffect(i, s)
  {
    hide KindOf, AluEffect, Write, Jump, Branch, X, A.DoAlu, A.Even, H.Forward, H.ShouldBranch, C.Stores;
    ImmediateKinds();
    match i {
      case Li(rd, imm) =>
        AddEffect(s, rd, X(s, 0), imm);
        ZeroRegister(s, imm, 0);
      case Mv(rd, rs2) =>
        AddEffect(s, rd, X(s, rs2), 0);
        PlusZero(X(s, rs2));
      case Lui(_, _) =>
    }
  }

  lemma ShiftMeaning(i: C.Instruction, s: Arch)
    requires i.Srli? || i.Srai? || i.Slli?
    ensures SameEffect(i, s)
  {
    hide KindOf, AluEffect, Write, Jump, Branch, X, A.DoAlu, A.Even, H.Forward, H.ShouldBranch, C.Stores;
    ImmediateKinds();
    match i {
      case Srli(rd, imm) => SrlEffect(s, rd, X(s, rd), imm);
      case Srai(rd, imm) => SraEffect(s, rd, X(s, rd), imm);
      case Slli(rd, imm) => SllEffect(s, rd, X(s, rd), imm);
    }
  }

  lemma ArithmeticMeaning(i: C.Instruction, s: Arch)
    requires i.Sub? || i.Add? || i.Andi?
    ensures SameEffect(i, s)
  {
    hide KindOf, AluEffect, Write, Jump, Branch, X, A.DoAlu, A.Even, H.Forward, H.ShouldBranch, C.Stores;
    RegisterKinds();
    ImmediateKinds();
    match i {
      case Sub(rd, rs2) => SubEffect(s, rd, X(s, rd), X(s, rs2));
      case Add(rd, rs2) => AddEffect(s, rd, X(s, rd), X(s, rs2));
      case Andi(rd, imm) => AndEffect(s, rd, X(s, rd), imm);
    }
  }

  lemma LogicMeaning(i: C.Instruction, s: Arch)
    requires i.Xor? || i.Or? || i.And?
    ensures SameEffect(i, s)
  {
    hide KindOf, AluEffect, Write, Jump, Branch, X, A.DoAlu, A.Even, H.Forward, H.ShouldBranch, C.Stores;
    RegisterKinds();
    match i {
      case Xor(rd, rs2) => XorEffect(s, rd, X(s, rd), X(s, rs2));
      case Or(rd, rs2) => OrEffect(s, rd, X(s, rd), X(s, rs2));
      case And(rd, rs2) => AndEffect(s, rd, X(s, rd), X(s, rs2));
    }
  }

  lemma JumpMeaning(i: C.Instruction, s: Arch)
    requires ZeroHardwired(s)
    requires i.Jal? || i.J?
    ensures SameEffect(i, s)
  {
    hide KindOf, AluEffect, Write, Jump, Branch, X, A.DoAlu, A.Even, H.Forward, H.ShouldBranch, C.Stores;
    MemoryKinds();
    match i {
      case Jal(imm) => JalValue(s.pc, imm);
      case J(imm) =>
        JalValue(s.pc, imm);
        ZeroRegister(s, imm, H.Forward(s.pc, imm));
    }
  }

  lemma JumpRegisterMeaning(i: C.Instruction, s: Arch)
    requires ZeroHardwired(s)
    requires i.Jalr? || i.Jr?
    ensures SameEffect(i, s)
  {
    hide KindOf, AluEffect, Write, Jump, Branch, X, A.DoAlu, A.Even, H.Forward, H.ShouldBranch, C.Stores;
    MemoryKinds();
    match i {
      case Jalr(rs1) => JumpValue(X(s, rs1));
      case Jr(rs1) =>
        JumpValue(X(s, rs1));
        ZeroRegister(s, 0, A.Even(X(s, rs1)));
    }
  }

  lemma BranchMeaning(i: C.Instruction, s: Arch)
    requires ZeroHardwired(s)
    requires i.Beqz? || i.Bnez?
    ensures SameEffect(i, s)
  {
    hide KindOf, AluEffect, Write, Jump, Branch, X, A.DoAlu, A.Even, H.Forward, H.ShouldBranch, C.Stores;
    MemoryKinds();
    match i {
      case Beqz(rs1, imm) =>
        ZeroRegister(s, imm, 0);
        BranchValue(X(s, rs1), X(s, 0));
      case Bnez(rs1, imm) =>
        ZeroRegister(s, imm, 0);
        BranchValue(X(s, rs1), X(s, 0));
    }
  }

  lemma LoadMeaning(i: C.Instruction, s: Arch)
    requires i.Lw? || i.Lwsp? || i.Ebreak?
    ensures SameEffect(i, s)
  {
    hide KindOf, AluEffect, Write, Jump, Branch, X, A.DoAlu, A.Even, H.Forward, H.ShouldBranch, C.Stores;
    MemoryKinds();
  }

  lemma StoreMeaning(i: C.Instruction, s: Arch)
    requires i.Sw? || i.Swsp?
    ensures SameEffect(i, s)
  {
    hide KindOf, AluEffect, Write, Jump, Branch, X, A.DoAlu, A.Even, H.Forward, H.ShouldBranch, C.Stores;
    MemoryKinds();
    match i {
      case Sw(rs2, rs1, imm) => StoreForm(s, H.Forward(X(s, rs1), imm), X(s, rs2));
      case Swsp(rs2, imm) => StoreForm(s, H.Forward(X(s, SP), imm), X(s, rs2));
    }
  }

  /** Executing the expansion has the effect of the compressed instruction, in every state with x0 = 0. */
  lemma ExpansionMeaning(i: C.Instruction, s: Arch)
    requires ZeroHardwired(s)
    ensures SameEffect(i, s)
  {
    hide *;
    if i.Addi4spn? || i.Addi? || i.Addi16sp? {
      AddMeaning(i, s);
    } else if i.Li? || i.Mv? || i.Lui? {
      ConstantMeaning(i, s);
    } else if i.Srli? || i.Srai? || i.Slli? {
      ShiftMeaning(i, s);
    } else if i.Sub? || i.Add? || i.Andi? {
      ArithmeticMeaning(i, s);
    } else if i.Xor? || i.Or? || i.And? {
      LogicMeaning(i, s);
    } else if i.Jal? || i.J? {
      JumpMeaning(i, s);
    } else if i.Jalr? || i.Jr? {
      JumpRegisterMeaning(i, s);
    } else if i.Beqz? || i.Bnez? {
      BranchMeaning(i, s);
    } else if i.Lw? || i.Lwsp? || i.Ebreak? {
      LoadMeaning(i, s);
    } else {
      StoreMeaning(i, s);
    }
  }

  /** Expanding a compressed word preserves its meaning: in every state with x0 = 0, whatever the struct held
      before, the base instruction the pipeline leaves has the effect chapter 16 gives the word, unless it is left
      illegal. */
  lemma ExpansionPreservesMeaning(inst: inst64, i: C.Instruction, s: Arch, prior: Fields)
    requires C.Decode(inst) == C.Some(i) && ZeroHardwired(s)
    requires Expanded(inst, Rv32, prior) != Illegal
    ensures Expanded(inst, Rv32, prior).Base?
    ensures Execute(Expanded(inst, Rv32, prior).base, OperandsOf(inst, CodecOf(OpcodeOf(inst, Rv32)), prior), 2, s)
        == C.Meaning(i, s)
  {
    hide OpcodeOf, CodecOf, OperandsOf, Decompress, Execute, C.Decode, C.Meaning, Expansion, MarkedIllegal, Expanded;
    WordExpands(inst, i, prior);
    ExpansionMeaning(i, s);
  }
}
