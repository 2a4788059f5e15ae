/** What a decoded RV32IM instruction does, in terms of the simulator's own do_alu, should_branch, load and store.
    Fences and the system instructions other than ebreak have no kind here. */
module DisasMeaning {
  import A = Alu
  import H = HartSpec
  import opened FlatMemory
  import opened Architecture
  import opened DisasTables
  import opened DisasDecode

  /** The kinds of base instructions, with the operation of the simulator each one uses. */
  datatype Kind =
    | LoadUpper | AddUpperToPc | JumpAndLink | JumpRegister | Break
    | Loads(load: H.LoadKind) | StoresTo(store: H.StoreKind) | Branches(branch: H.BranchKind)
    | WithImmediate(alu: A.AluOp) | WithRegister(alu: A.AluOp)
    | OtherKind

  function KindOf(op: BaseOp): Kind {
    match op
    case Lui => LoadUpper
    case Auipc => AddUpperToPc
    case Jal => JumpAndLink
    case Jalr => JumpRegister
    case Ebreak => Break
    case Lb => Loads(H.Lb)
    case Lh => Loads(H.Lh)
    case Lw => Loads(H.Lw)
    case Lbu => Loads(H.Lbu)
    case Lhu => Loads(H.Lhu)
    case Sb => StoresTo(H.Sb)
    case Sh => StoresTo(H.Sh)
    case Sw => StoresTo(H.Sw)
    case Beq => Branches(H.Beq)
    case Bne => Branches(H.Bne)
    case Blt => Branches(H.Blt)
    case Bge => Branches(H.Bge)
    case Bltu => Branches(H.Bltu)
    case Bgeu => Branches(H.Bgeu)
    case Addi => WithImmediate(A.Add)
    case Slti => WithImmediate(A.Slt)
    case Sltiu => WithImmediate(A.Sltu)
    case Xori => WithImmediate(A.Xor)
    case Ori => WithImmediate(A.Or)
    case Andi => WithImmediate(A.And)
    case Slli => WithImmediate(A.Sll)
    case Srli => WithImmediate(A.Srl)
    case Srai => WithImmediate(A.Sra)
    case Add => WithRegister(A.Add)
    case Sub => WithRegister(A.Sub)
    case Sll => WithRegister(A.Sll)
    case Slt => WithRegister(A.Slt)
    case Sltu => WithRegister(A.Sltu)
    case Xor => WithRegister(A.Xor)
    case Srl => WithRegister(A.Srl)
    case Sra => WithRegister(A.Sra)
    case Or => WithRegister(A.Or)
    case And => WithRegister(A.And)
    case Mul => WithRegister(A.Mul)
    case Mulh => WithRegister(A.MulHigh)
    case Mulhsu => WithRegister(A.MulHighSU)
    case Mulhu => WithRegister(A.MulHighU)
    case Div => WithRegister(A.DivS)
    case Divu => WithRegister(A.DivU)
    case Rem => WithRegister(A.RemS)
    case Remu => WithRegister(A.RemU)
    case _ => OtherKind
  }

  function AluEffect(s: Arch, op: A.AluOp, rd: reg, a: word, b: word, len: word): Effect {
    if A.Defined(op, b) then Write(s, rd, A.DoAlu(op, a, b), len) else NotModelled
  }

  /** The effect of an instruction of len bytes with these operand fields. */
  function ExecuteKind(kind: Kind, f: Fields, len: word, s: Arch): Effect {
    match kind
    case LoadUpper => Write(s, f.rd, f.imm, len)
    case AddUpperToPc => AluEffect(s, A.Auipc, f.rd, s.pc, f.imm, len)
    case JumpAndLink => Jump(s, f.rd, A.DoAlu(A.Jal, s.pc, f.imm), len)
    case JumpRegister => Jump(s, f.rd, A.DoAlu(A.Jalr, X(s, f.rs1), f.imm), len)
    case Break => Breaks
    case Loads(load) => Write(s, f.rd, H.Load(s.mem, load, H.At(H.Forward(X(s, f.rs1), f.imm))), len)
    case StoresTo(store) =>
      Next(Arch(s.x, H.Forward(s.pc, len), H.StoreValue(s.mem, store, H.At(H.Forward(X(s, f.rs1), f.imm)),
          X(s, f.rs2))))
    case Branches(branch) => Branch(s, H.ShouldBranch(X(s, f.rs1), X(s, f.rs2), branch), f.imm, len)
    case WithImmediate(alu) => AluEffect(s, alu, f.rd, X(s, f.rs1), f.imm, len)
    case WithRegister(alu) => AluEffect(s, alu, f.rd, X(s, f.rs1), X(s, f.rs2), len)
    case OtherKind => NotModelled
  }

  function Execute(op: BaseOp, f: Fields, len: word, s: Arch): Effect {
    ExecuteKind(KindOf(op), f, len, s)
  }
}
