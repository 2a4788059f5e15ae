/** decode_inst_lift_pseudo, and the operands decode_inst_format prints. */
module DisasPseudo {
  import opened Architecture
  import opened DisasTables
  import opened DisasDecode

  // ----- lifting

  predicate Holds(c: Constraint, f: Fields) {
    match c
    case RdEqRa => f.rd == 1
    case RdEqX0 => f.rd == 0
    case Rs1EqX0 => f.rs1 == 0
    case Rs2EqX0 => f.rs2 == 0
    case Rs2EqRs1 => f.rs2 == f.rs1
    case Rs1EqRa => f.rs1 == 1
    case ImmEqZero => f.imm == 0
    case ImmEqN1 => f.imm == 0xFFFF_FFFF
    case ImmEqP1 => f.imm == 1
    case CsrEq(csr) => f.imm == csr
  }

  predicate Matches(row: PseudoRow, f: Fields) {
    forall k :: 0 <= k < |row.constraints| ==> Holds(row.constraints[k], f)
  }

  /** The first row whose constraints hold, or the number of rows. */
  function FirstMatch(rows: seq<PseudoRow>, f: Fields, from: nat): (k: nat)
    requires from <= |rows|
    ensures from <= k <= |rows|
    ensures k < |rows| ==> Matches(rows[k], f)
    ensures forall j :: from <= j < k ==> !Matches(rows[j], f)
    decreases |rows| - from
  {
    if from == |rows| || Matches(rows[from], f) then from else FirstMatch(rows, f, from + 1)
  }

  /** decode_inst_lift_pseudo, as a function of the decoded struct; only base opcodes have rows. */
  function Lift(op: Opcode, f: Fields): Opcode {
    if !op.Base? then op
    else
      var rows := PseudoRows(op.base);
      var k := FirstMatch(rows, f, 0);
      if k < |rows| then rows[k].op else op
  }

  /** The instruction a pseudo-instruction stands for. */
  function BaseOf(op: PseudoOp): BaseOp {
    match op
    case Nop | Mv => Addi
    case Not => Xori
    case Neg => Sub
    case Negw => Wide(Subw)
    case SextW => Wide(Addiw)
    case Seqz => Sltiu
    case Snez => Sltu
    case Sltz | Sgtz => Slt
    case FmvS => Float(FsgnjS)
    case FabsS => Float(FsgnjxS)
    case FnegS => Float(FsgnjnS)
    case FmvD => Float(FsgnjD)
    case FabsD => Float(FsgnjxD)
    case FnegD => Float(FsgnjnD)
    case FmvQ => Float(FsgnjQ)
    case FabsQ => Float(FsgnjxQ)
    case FnegQ => Float(FsgnjnQ)
    case Beqz => Beq
    case Bnez => Bne
    case Blez | Bgez | Ble => Bge
    case Bltz | Bgtz | Bgt => Blt
    case Bleu => Bgeu
    case Bgtu => Bltu
    case J => Jal
    case Ret | Jr => Jalr
    case Rdcycle | Rdtime | Rdinstret | Rdcycleh | Rdtimeh | Rdinstreth | Frcsr | Frrm | Frflags => Csrrs
    case Fscsr | Fsrm | Fsflags => Csrrw
    case Fsrmi | Fsflagsi => Csrrwi
  }

  /** The opcode a row keeps, or its base instruction. */
  function Recovered(op: Opcode): Opcode {
    if op.Pseudo? then Base(BaseOf(op.pseudo)) else op
  }

  lemma JumpKeepsCodec(p: PseudoOp)
    requires PseudoCodec(p) == UJ
    ensures BaseCodec(BaseOf(p)) == UJ
  {
  }

  lemma ImmediateKeepsCodec(p: PseudoOp)
    requires PseudoCodec(p) == I
    ensures BaseCodec(BaseOf(p)) == I
  {
  }

  lemma BranchKeepsCodec(p: PseudoOp)
    requires PseudoCodec(p) == SB
    ensures BaseCodec(BaseOf(p)) == SB
  {
  }

  predicate ForFloat(p: PseudoOp) {
    || p.FmvS? || p.FabsS? || p.FnegS? || p.FmvD? || p.FabsD? || p.FnegD? || p.FmvQ? || p.FabsQ? || p.FnegQ?
  }

  predicate SignInjection(g: FloatOpcode) {
    !g.Flw? && !g.Fsw? && !g.Fld? && !g.Fsd? && !g.Flq? && !g.Fsq? && !g.FloatOrAtomic?
  }

  lemma FloatBases(p: PseudoOp)
    requires ForFloat(p)
    ensures BaseOf(p).Float? && SignInjection(BaseOf(p).float)
  {
  }

  lemma FloatKeepsCodec(p: PseudoOp)
    requires ForFloat(p)
    ensures BaseCodec(BaseOf(p)) == R
  {
    hide BaseOf, ForFloat;
    FloatBases(p);
  }

  lemma RegisterKeepsCodec(p: PseudoOp)
    requires PseudoCodec(p) == R && !ForFloat(p)
    ensures BaseCodec(BaseOf(p)) == R
  {
  }

  lemma CsrKeepsCodec(p: PseudoOp)
    requires PseudoCodec(p) == ICsr
    ensures BaseCodec(BaseOf(p)) == ICsr
  {
  }

  lemma PseudoCodecs(p: PseudoOp)
    ensures PseudoCodec(p) in {UJ, I, SB, R, ICsr}
  {
  }

  lemma PseudoKeepsCodec(p: PseudoOp)
    ensures PseudoCodec(p) == BaseCodec(BaseOf(p))
  {
    hide PseudoCodec, BaseCodec, BaseOf, ForFloat;
    PseudoCodecs(p);
    match PseudoCodec(p) {
      case UJ => JumpKeepsCodec(p);
      case I => ImmediateKeepsCodec(p);
      case SB => BranchKeepsCodec(p);
      case R =>
        if ForFloat(p) {
          FloatKeepsCodec(p);
        } else {
          RegisterKeepsCodec(p);
        }
      case _ => CsrKeepsCodec(p);
    }
  }

  lemma TransferRowsLeadBack(op: BaseOp, k: nat)
    requires k < |TransferRows(op)|
    ensures Recovered(TransferRows(op)[k].op) == Base(op)
  {
  }

  lemma ArithmeticRowsLeadBack(op: BaseOp, k: nat)
    requires k < |ArithmeticRows(op)|
    ensures Recovered(ArithmeticRows(op)[k].op) == Base(op)
  {
  }

  lemma CsrReadRowsLeadBack(k: nat)
    requires k < |CsrRows(Csrrs)|
    ensures Recovered(CsrRows(Csrrs)[k].op) == Base(Csrrs)
  {
  }

  lemma CsrWriteRowsLeadBack(op: BaseOp, k: nat)
    requires op != Csrrs && k < |CsrRows(op)|
    ensures Recovered(CsrRows(op)[k].op) == Base(op)
  {
  }

  lemma WideRowsLeadBack(op: WideOpcode, k: nat)
    requires k < |WideRows(op)|
    ensures Recovered(WideRows(op)[k].op) == Base(Wide(op))
  {
  }

  lemma FloatRowsLeadBack(op: FloatOpcode, k: nat)
    requires k < |FloatRows(op)|
    ensures Recovered(FloatRows(op)[k].op) == Base(Float(op))
  {
  }

  lemma RowsOf(op: BaseOp)
    ensures op.Wide? ==> PseudoRows(op) == WideRows(op.wide)
    ensures op.Float? ==> PseudoRows(op) == FloatRows(op.float)
    ensures op.Csrrw? || op.Csrrs? || op.Csrrwi? ==> PseudoRows(op) == CsrRows(op)
    ensures !op.Wide? && !op.Float? && !op.Csrrw? && !op.Csrrs? && !op.Csrrwi? ==>
              PseudoRows(op) == TransferRows(op) || PseudoRows(op) == ArithmeticRows(op)
  {
    hide TransferRows, ArithmeticRows, CsrRows, WideRows, FloatRows;
  }

  lemma RowsRecover(op: BaseOp, k: nat)
    requires k < |PseudoRows(op)|
    ensures Recovered(PseudoRows(op)[k].op) == Base(op)
  {
    hide PseudoRows, TransferRows, ArithmeticRows, CsrRows, WideRows, FloatRows, Recovered;
    RowsOf(op);
    if op.Wide? {
      WideRowsLeadBack(op.wide, k);
    } else if op.Float? {
      FloatRowsLeadBack(op.float, k);
    } else if op.Csrrs? {
      CsrReadRowsLeadBack(k);
    } else if op.Csrrw? || op.Csrrwi? {
      CsrWriteRowsLeadBack(op, k);
    } else if PseudoRows(op) == TransferRows(op) {
      TransferRowsLeadBack(op, k);
    } else {
      ArithmeticRowsLeadBack(op, k);
    }
  }

  /** Every row of the table leads back to the opcode it belongs to, and has its codec. */
  lemma RowsLeadBack(op: BaseOp, k: nat)
    requires k < |PseudoRows(op)|
    ensures Recovered(PseudoRows(op)[k].op) == Base(op)
    ensures CodecOf(PseudoRows(op)[k].op) == BaseCodec(op)
    ensures !PseudoRows(op)[k].op.Compressed? && !PseudoRows(op)[k].op.Illegal?
  {
    hide PseudoRows, PseudoCodec, BaseCodec, BaseOf;
    RowsRecover(op, k);
    var lifted := PseudoRows(op)[k].op;
    if lifted.Pseudo? {
      PseudoKeepsCodec(lifted.pseudo);
    }
  }

  /** Lifting is idempotent, keeps the codec, and its base opcode can be recovered. */
  lemma LiftIsInvertible(op: Opcode, f: Fields)
    requires !op.Pseudo?
    ensures Recovered(Lift(op, f)) == op
    ensures CodecOf(Lift(op, f)) == CodecOf(op)
    ensures Lift(Lift(op, f), f) == Lift(op, f)
  {
    hide PseudoRows, BaseCodec, PseudoCodec, CompressedCodec, BaseOf;
    if op.Base? {
      var k := FirstMatch(PseudoRows(op.base), f, 0);
      if k < |PseudoRows(op.base)| {
        RowsLeadBack(op.base, k);
      }
    }
  }

  // ----- the printed operands

  /** One printed operand, InParens for the base register of an offset; rounding modes, fence sets and csr names are
      not told apart. */
  datatype Shown = Register(n: reg) | InParens(n: reg) | FloatRegister(n: reg) | Number(v: imm32) | Text

  /** The zero-extended immediate of a csr instruction, which is kept in rs1. */
  function Widened(r: reg): imm32 { r as imm32 }

  function Show(o: Operand, f: Fields): Shown {
    match o
    case Rd => Register(f.rd)
    case Rs1 => Register(f.rs1)
    case Rs2 => Register(f.rs2)
    case Base1 => InParens(f.rs1)
    case FRd => FloatRegister(f.rd)
    case FRs1 => FloatRegister(f.rs1)
    case FRs2 => FloatRegister(f.rs2)
    case Zimm => Number(Widened(f.rs1))
    case Imm => Number(f.imm)
    case PcOffset => Number(f.imm)
    case CsrName => Text
    case PredSucc => Text
  }

  /** The operands of the printed line, from left to right. */
  function Print(format: seq<Operand>, f: Fields): (line: seq<Shown>)
    ensures |line| == |format|
    ensures forall k :: 0 <= k < |format| ==> line[k] == Show(format[k], f)
  {
    seq(|format|, k requires 0 <= k < |format| => Show(format[k], f))
  }
}
