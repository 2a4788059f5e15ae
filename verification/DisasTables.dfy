/** The disassembler's opcodes and its three tables: codecs, decompression targets, pseudo-instructions. */
module DisasTables {
  datatype Isa = Rv32 | Rv64 | Rv128

  datatype Opcode = Illegal | Base(base: BaseOp) | Compressed(comp: CompressedOp) | Pseudo(pseudo: PseudoOp)

  /** RV32IM and Zicsr; the other opcodes sit in three groups of their own. */
  datatype BaseOp =
    | Lui | Auipc | Jal | Jalr | Beq | Bne | Blt | Bge | Bltu | Bgeu
    | Lb | Lh | Lw | Lbu | Lhu | Sb | Sh | Sw
    | Addi | Slti | Sltiu | Xori | Ori | Andi | Slli | Srli | Srai
    | Add | Sub | Sll | Slt | Sltu | Xor | Srl | Sra | Or | And
    | Mul | Mulh | Mulhsu | Mulhu | Div | Divu | Rem | Remu
    | Csrrw | Csrrs | Csrrc | Csrrwi | Csrrsi | Csrrci | Ebreak
    | Wide(wide: WideOpcode) | System(system: SystemOpcode) | Float(float: FloatOpcode)

  /** RV64 and RV128. */
  datatype WideOpcode =
    | Lwu | Ld | Sd | Addiw | Slliw | Srliw | Sraiw | Addw | Subw | Sllw | Srlw | Sraw
    | Ldu | Lq | Sq | Addid | Sllid | Srlid | Sraid | Addd | Subd | Slld | Srld | Srad
    | Mulw | Divw | Divuw | Remw | Remuw | Muld | Divd | Divud | Remd | Remud

  datatype SystemOpcode = Fence | FenceI | Ecall | Uret | Sret | Hret | Mret | Dret | SfenceVm | SfenceVma | Wfi

  /** Floating-point loads, stores and sign injection, the rows other tables refer to; FloatOrAtomic stands for
      every other floating-point or atomic opcode, or no opcode at all, in their major opcodes. */
  datatype FloatOpcode =
    | Flw | Fsw | Fld | Fsd | Flq | Fsq
    | FsgnjS | FsgnjnS | FsgnjxS | FsgnjD | FsgnjnD | FsgnjxD | FsgnjQ | FsgnjnQ | FsgnjxQ
    | FloatOrAtomic

  datatype CompressedOp =
    | CAddi4spn | CFld | CLw | CFlw | CFsd | CSw | CFsw | CNop | CAddi | CJal | CLi | CAddi16sp | CLui
    | CSrli | CSrai | CAndi | CSub | CXor | COr | CAnd | CSubw | CAddw | CJ | CBeqz | CBnez
    | CSlli | CFldsp | CLwsp | CFlwsp | CJr | CMv | CEbreak | CJalr | CAdd | CFsdsp | CSwsp | CFswsp
    | CLd | CSd | CAddiw | CLdsp | CSdsp | CLq | CSq | CLqsp | CSqsp

  datatype PseudoOp =
    | Nop | Mv | Not | Neg | Negw | SextW | Seqz | Snez | Sltz | Sgtz
    | FmvS | FabsS | FnegS | FmvD | FabsD | FnegD | FmvQ | FabsQ | FnegQ
    | Beqz | Bnez | Blez | Bgez | Bltz | Bgtz | Ble | Bleu | Bgt | Bgtu | J | Ret | Jr
    | Rdcycle | Rdtime | Rdinstret | Rdcycleh | Rdtimeh | Rdinstreth
    | Frcsr | Frrm | Frflags | Fscsr | Fsrm | Fsflags | Fsrmi | Fsflagsi

  datatype Codec =
    | CodecIllegal | CodecNone | U | UJ | I | ISh5 | ISh6 | ISh7 | ICsr | S | SB | R | RF
    | Compact(compact: CompactCodec)
    | FloatOrAtomicCodec

  /** The codecs of 16-bit words. */
  datatype CompactCodec =
    | CB | CBImm | CBSh6 | CI | CISh6 | CI16sp | CILwsp | CILdsp | CILqsp | CILi | CILui | CINone
    | CIW4spn | CJ_ | CJJal | CLLw | CLLd | CLLq | CR | CRMv | CRJalr | CRJr | CS | CSSw | CSSd | CSSq
    | CSSSwsp | CSSSdsp | CSSSqsp

  /** The codec column of opcode_data. */
  function CodecOf(op: Opcode): Codec {
    match op
    case Illegal => CodecIllegal
    case Base(b) => BaseCodec(b)
    case Compressed(c) => Compact(CompressedCodec(c))
    case Pseudo(p) => PseudoCodec(p)
  }

  function BaseCodec(op: BaseOp): Codec {
    match op
    case Lui | Auipc => U
    case Jal => UJ
    case Jalr | Lb | Lh | Lw | Lbu | Lhu | Addi | Slti | Sltiu | Xori | Ori | Andi => I
    case Slli | Srli | Srai => ISh7
    case Sb | Sh | Sw => S
    case Beq | Bne | Blt | Bge | Bltu | Bgeu => SB
    case Add | Sub | Sll | Slt | Sltu | Xor | Srl | Sra | Or | And => R
    case Mul | Mulh | Mulhsu | Mulhu | Div | Divu | Rem | Remu => R
    case Csrrw | Csrrs | Csrrc | Csrrwi | Csrrsi | Csrrci => ICsr
    case Ebreak => CodecNone
    case Wide(w) => WideCodec(w)
    case System(y) => SystemCodec(y)
    case Float(g) => FloatCodec(g)
  }

  function WideCodec(op: WideOpcode): Codec {
    match op
    case Lwu | Ld | Addiw | Ldu | Lq | Addid => I
    case Sllid | Srlid | Sraid => ISh6
    case Slliw | Srliw | Sraiw => ISh5
    case Sd | Sq => S
    case _ => R
  }

  function SystemCodec(op: SystemOpcode): Codec {
    match op
    case Fence => RF
    case SfenceVm | SfenceVma => R
    case _ => CodecNone
  }

  function FloatCodec(op: FloatOpcode): Codec {
    match op
    case Flw | Fld | Flq => I
    case Fsw | Fsd | Fsq => S
    case FloatOrAtomic => FloatOrAtomicCodec
    case _ => R
  }

  function CompressedCodec(op: CompressedOp): CompactCodec {
    match op
    case CAddi4spn => CIW4spn
    case CFld | CLd => CLLd
    case CLw | CFlw => CLLw
    case CFsd | CSd => CSSd
    case CSw | CFsw => CSSw
    case CNop | CEbreak => CINone
    case CAddi | CAddiw => CI
    case CJal => CJJal
    case CLi => CILi
    case CAddi16sp => CI16sp
    case CLui => CILui
    case CSrli | CSrai => CBSh6
    case CAndi => CBImm
    case CSub | CXor | COr | CAnd | CSubw | CAddw => CS
    case CJ => CJ_
    case CBeqz | CBnez => CB
    case CSlli => CISh6
    case CFldsp | CLdsp => CILdsp
    case CLwsp | CFlwsp => CILwsp
    case CJr => CRJr
    case CMv => CRMv
    case CJalr => CRJalr
    case CAdd => CR
    case CFsdsp | CSdsp => CSSSdsp
    case CSwsp | CFswsp => CSSSwsp
    case CLq => CLLq
    case CSq => CSSq
    case CLqsp => CILqsp
    case CSqsp => CSSSqsp
  }

  function PseudoCodec(op: PseudoOp): Codec {
    match op
    case J => UJ
    case Nop | Mv | Not | SextW | Seqz | Ret | Jr => I
    case Beqz | Bnez | Blez | Bgez | Bltz | Bgtz | Ble | Bleu | Bgt | Bgtu => SB
    case Neg | Negw | Snez | Sltz | Sgtz => R
    case FmvS | FabsS | FnegS | FmvD | FabsD | FnegD | FmvQ | FabsQ | FnegQ => R
    case Rdcycle | Rdtime | Rdinstret | Rdcycleh | Rdtimeh | Rdinstreth => ICsr
    case Frcsr | Frrm | Frflags | Fscsr | Fsrm | Fsflags | Fsrmi | Fsflagsi => ICsr
  }

  /** The decomp_rv32, decomp_rv64 and decomp_rv128 columns; Illegal stands for the zero of an opcode without one. */
  function DecompressedOp(op: CompressedOp, isa: Isa): Opcode {
    match op
    case CAddi4spn | CNop | CAddi | CLi | CAddi16sp | CMv => Base(Addi)
    case CFld => if isa.Rv128? then Illegal else Base(Float(Fld))
    case CLw | CLwsp => Base(Lw)
    case CFlw | CFlwsp => if isa.Rv32? then Base(Float(Flw)) else Illegal
    case CFsd => if isa.Rv128? then Illegal else Base(Float(Fsd))
    case CSw | CSwsp => Base(Sw)
    case CFsw | CFswsp => if isa.Rv32? then Base(Float(Fsw)) else Illegal
    case CJal => if isa.Rv32? then Base(Jal) else Illegal
    case CLui => Base(Lui)
    case CSrli => Base(Srli)
    case CSrai => Base(Srai)
    case CAndi => Base(Andi)
    case CSub => Base(Sub)
    case CXor => Base(Xor)
    case COr => Base(Or)
    case CAnd => Base(And)
    case CSubw => Base(Wide(Subw))
    case CAddw => Base(Wide(Addw))
    case CJ => Base(Jal)
    case CBeqz => Base(Beq)
    case CBnez => Base(Bne)
    case CSlli => Base(Slli)
    case CFldsp => Base(Float(Fld))
    case CJr | CJalr => Base(Jalr)
    case CEbreak => Base(Ebreak)
    case CAdd => Base(Add)
    case CFsdsp => Base(Float(Fsd))
    case CLd | CLdsp => if isa.Rv32? then Illegal else Base(Wide(Ld))
    case CSd | CSdsp => if isa.Rv32? then Illegal else Base(Wide(Sd))
    case CAddiw => if isa.Rv32? then Illegal else Base(Wide(Addiw))
    case CLq | CLqsp => if isa.Rv128? then Base(Wide(Lq)) else Illegal
    case CSq | CSqsp => if isa.Rv128? then Base(Wide(Sq)) else Illegal
  }

  /** The rvcd_imm_nz flag of the decomp_data column. */
  predicate NeedsNonZero(op: CompressedOp) {
    op.CAddi4spn? || op.CAddi16sp? || op.CLui? || op.CSrli? || op.CSrai? || op.CAndi? || op.CSlli?
  }

  // ----- pseudo-instructions

  datatype Constraint =
    | RdEqRa | RdEqX0 | Rs1EqX0 | Rs2EqX0 | Rs2EqRs1 | Rs1EqRa | ImmEqZero | ImmEqN1 | ImmEqP1
    | CsrEq(csr: bv32)

  datatype PseudoRow = PseudoRow(op: Opcode, constraints: seq<Constraint>)

  /** The pseudo column: the rows in the order they are tried. */
  function PseudoRows(op: BaseOp): seq<PseudoRow> {
    match op
    case Csrrw | Csrrs | Csrrwi => CsrRows(op)
    case Wide(w) => WideRows(w)
    case Float(g) => FloatRows(g)
    case Jal | Jalr | Beq | Bne | Blt | Bge | Bltu | Bgeu => TransferRows(op)
    case _ => ArithmeticRows(op)
  }

  function TransferRows(op: BaseOp): seq<PseudoRow> {
    match op
    case Jal => [PseudoRow(Pseudo(J), [RdEqX0]), PseudoRow(Base(Jal), [RdEqRa])]
    case Jalr => [PseudoRow(Pseudo(Ret), [RdEqX0, Rs1EqRa]), PseudoRow(Pseudo(Jr), [RdEqX0, ImmEqZero]),
      PseudoRow(Base(Jalr), [RdEqRa, ImmEqZero])]
    case Beq => [PseudoRow(Pseudo(Beqz), [Rs2EqX0])]
    case Bne => [PseudoRow(Pseudo(Bnez), [Rs2EqX0])]
    case Blt => [PseudoRow(Pseudo(Bltz), [Rs2EqX0]), PseudoRow(Pseudo(Bgtz), [Rs1EqX0]), PseudoRow(Pseudo(Bgt), [])]
    case Bge => [PseudoRow(Pseudo(Blez), [Rs1EqX0]), PseudoRow(Pseudo(Bgez), [Rs2EqX0]), PseudoRow(Pseudo(Ble), [])]
    case Bltu => [PseudoRow(Pseudo(Bgtu), [])]
    case Bgeu => [PseudoRow(Pseudo(Bleu), [])]
    case _ => []
  }

  function ArithmeticRows(op: BaseOp): seq<PseudoRow> {
    match op
    case Addi => [PseudoRow(Pseudo(Nop), [RdEqX0, Rs1EqX0, ImmEqZero]), PseudoRow(Pseudo(Mv), [ImmEqZero])]
    case Sltiu => [PseudoRow(Pseudo(Seqz), [ImmEqP1])]
    case Xori => [PseudoRow(Pseudo(Not), [ImmEqN1])]
    case Sub => [PseudoRow(Pseudo(Neg), [Rs1EqX0])]
    case Slt => [PseudoRow(Pseudo(Sltz), [Rs2EqX0]), PseudoRow(Pseudo(Sgtz), [Rs1EqX0])]
    case Sltu => [PseudoRow(Pseudo(Snez), [Rs1EqX0])]
    case _ => []
  }

  function CsrRows(op: BaseOp): seq<PseudoRow> {
    match op
    case Csrrw => [PseudoRow(Pseudo(Fscsr), [CsrEq(0x003)]), PseudoRow(Pseudo(Fsrm), [CsrEq(0x002)]),
      PseudoRow(Pseudo(Fsflags), [CsrEq(0x001)])]
    case Csrrs =>
      [PseudoRow(Pseudo(Rdcycle), [Rs1EqX0, CsrEq(0xc00)]), PseudoRow(Pseudo(Rdtime), [Rs1EqX0, CsrEq(0xc01)]),
       PseudoRow(Pseudo(Rdinstret), [Rs1EqX0, CsrEq(0xc02)]), PseudoRow(Pseudo(Rdcycleh), [Rs1EqX0, CsrEq(0xc80)]),
       PseudoRow(Pseudo(Rdtimeh), [Rs1EqX0, CsrEq(0xc81)]), PseudoRow(Pseudo(Rdinstreth), [Rs1EqX0, CsrEq(0xc82)]),
       PseudoRow(Pseudo(Frcsr), [Rs1EqX0, CsrEq(0x003)]), PseudoRow(Pseudo(Frrm), [Rs1EqX0, CsrEq(0x002)]),
       PseudoRow(Pseudo(Frflags), [Rs1EqX0, CsrEq(0x001)])]
    case Csrrwi => [PseudoRow(Pseudo(Fsrmi), [CsrEq(0x002)]), PseudoRow(Pseudo(Fsflagsi), [CsrEq(0x001)])]
    case _ => []
  }

  function WideRows(op: WideOpcode): seq<PseudoRow> {
    match op
    case Addiw => [PseudoRow(Pseudo(SextW), [ImmEqZero])]
    case Subw => [PseudoRow(Pseudo(Negw), [Rs1EqX0])]
    case _ => []
  }

  function FloatRows(op: FloatOpcode): seq<PseudoRow> {
    match op
    case FsgnjS => [PseudoRow(Pseudo(FmvS), [Rs2EqRs1])]
    case FsgnjnS => [PseudoRow(Pseudo(FnegS), [Rs2EqRs1])]
    case FsgnjxS => [PseudoRow(Pseudo(FabsS), [Rs2EqRs1])]
    case FsgnjD => [PseudoRow(Pseudo(FmvD), [Rs2EqRs1])]
    case FsgnjnD => [PseudoRow(Pseudo(FnegD), [Rs2EqRs1])]
    case FsgnjxD => [PseudoRow(Pseudo(FabsD), [Rs2EqRs1])]
    case FsgnjQ => [PseudoRow(Pseudo(FmvQ), [Rs2EqRs1])]
    case FsgnjnQ => [PseudoRow(Pseudo(FnegQ), [Rs2EqRs1])]
    case FsgnjxQ => [PseudoRow(Pseudo(FabsQ), [Rs2EqRs1])]
    case _ => []
  }

  /** The fields of the format column that print operands. */
  datatype Operand = Rd | Rs1 | Rs2 | FRd | FRs1 | FRs2 | Zimm | Imm | PcOffset | CsrName | PredSucc | Base1

  /** The format column, as the operands it prints from left to right; offset(rs1) prints as Imm, Base1.
      Decompression has replaced every compressed opcode before printing. */
  function FormatOf(op: Opcode): seq<Operand> {
    match op
    case Illegal => []
    case Base(b) => BaseFormat(b)
    case Compressed(c) => []
    case Pseudo(p) => PseudoFormat(p)
  }

  function BaseFormat(op: BaseOp): seq<Operand> {
    match op
    case Lui => [Rd, Imm]
    case Auipc | Jal => [Rd, PcOffset]
    case Jalr => [Rd, Rs1, Imm]
    case Beq | Bne | Blt | Bge | Bltu | Bgeu => [Rs1, Rs2, PcOffset]
    case Lb | Lh | Lw | Lbu | Lhu => [Rd, Imm, Base1]
    case Sb | Sh | Sw => [Rs2, Imm, Base1]
    case Addi | Slti | Sltiu | Xori | Ori | Andi | Slli | Srli | Srai => [Rd, Rs1, Imm]
    case Add | Sub | Sll | Slt | Sltu | Xor | Srl | Sra | Or | And => [Rd, Rs1, Rs2]
    case Mul | Mulh | Mulhsu | Mulhu | Div | Divu | Rem | Remu => [Rd, Rs1, Rs2]
    case Csrrw | Csrrs | Csrrc => [Rd, CsrName, Rs1]
    case Csrrwi | Csrrsi | Csrrci => [Rd, CsrName, Zimm]
    case Ebreak => []
    case Wide(w) => WideFormat(w)
    case System(y) => SystemFormat(y)
    case Float(g) => FloatFormat(g)
  }

  function WideFormat(op: WideOpcode): seq<Operand> {
    match op
    case Lwu | Ld | Ldu | Lq => [Rd, Imm, Base1]
    case Sd | Sq => [Rs2, Imm, Base1]
    case Addiw | Slliw | Srliw | Sraiw | Addid | Sllid | Srlid | Sraid => [Rd, Rs1, Imm]
    case _ => [Rd, Rs1, Rs2]
  }

  function SystemFormat(op: SystemOpcode): seq<Operand> {
    match op
    case Fence => [PredSucc]
    case SfenceVm => [Rs1]
    case SfenceVma => [Rs1, Rs2]
    case _ => []
  }

  function FloatFormat(op: FloatOpcode): seq<Operand> {
    match op
    case Flw | Fld | Flq => [FRd, Imm, Base1]
    case Fsw | Fsd | Fsq => [FRs2, Imm, Base1]
    case FloatOrAtomic => []
    case _ => [FRd, FRs1, FRs2]
  }

  function PseudoFormat(op: PseudoOp): seq<Operand> {
    match op
    case Mv | Not | SextW | Seqz | Sltz => [Rd, Rs1]
    case FmvS | FabsS | FnegS | FmvD | FabsD | FnegD | FmvQ | FabsQ | FnegQ => [Rd, Rs1]
    case Neg | Negw | Snez | Sgtz => [Rd, Rs2]
    case Beqz | Bnez | Bgez | Bltz => [Rs1, PcOffset]
    case Blez | Bgtz => [Rs2, PcOffset]
    case Ble | Bleu | Bgt | Bgtu => [Rs2, Rs1, PcOffset]
    case J => [PcOffset]
    case Jr => [Rs1]
    case Rdcycle | Rdtime | Rdinstret | Rdcycleh | Rdtimeh | Rdinstreth | Frcsr | Frrm | Frflags => [Rd]
    case Fscsr | Fsrm | Fsflags => [Rd, Rs1]
    case Fsrmi | Fsflagsi => [Rd, Zimm]
    case _ => []
  }
}
