/** What the printed lines mean to an assembler, and when that is what the disassembled instructions do. */
module DisasLines {
  import A = Alu
  import H = HartSpec
  import C = CompressedSpec
  import D = DisasCompressed
  import opened FlatMemory
  import opened Architecture
  import opened DisasMeaning
  import opened DisasTables
  import opened DisasDecode
  import opened DisasPseudo

  // ----- what a printed line means

  function Negated(a: word): word { 0 - a }
  function Inverted(a: word): word { a ^ 0xFFFF_FFFF }
  function Flag(b: bool): word { if b then 1 else 0 }

  predicate Above(a: word, b: word) { a > b }

  /** The register or number printed at position k. */
  function RegisterAt(line: seq<Shown>, k: nat): reg {
    if k < |line| && line[k].Register? then line[k].n else 0
  }

  function NumberAt(line: seq<Shown>, k: nat): word {
    if k < |line| && line[k].Number? then line[k].v else 0
  }

  /** The assembler's reading of a pseudo-instruction, from its mnemonic and printed operands alone (chapter 25 of
      the RISC-V Unprivileged ISA 20191213). */
  function PseudoMeaning(op: PseudoOp, line: seq<Shown>, len: word, s: Arch): Effect {
    var a, b := X(s, RegisterAt(line, 0)), X(s, RegisterAt(line, 1));
    match op
    case Nop => Next(s.(pc := H.Forward(s.pc, len)))
    case Mv => Write(s, RegisterAt(line, 0), b, len)
    case Not => Write(s, RegisterAt(line, 0), Inverted(b), len)
    case Neg => Write(s, RegisterAt(line, 0), Negated(b), len)
    case Seqz => Write(s, RegisterAt(line, 0), Flag(C.IsZero(b)), len)
    case Snez => Write(s, RegisterAt(line, 0), Flag(!C.IsZero(b)), len)
    case Sltz => Write(s, RegisterAt(line, 0), Flag(A.Signed(b) < 0), len)
    case Sgtz => Write(s, RegisterAt(line, 0), Flag(A.Signed(b) > 0), len)
    case Beqz => Branch(s, C.IsZero(a), NumberAt(line, 1), len)
    case Bnez => Branch(s, !C.IsZero(a), NumberAt(line, 1), len)
    case Blez => Branch(s, A.Signed(a) <= 0, NumberAt(line, 1), len)
    case Bgez => Branch(s, A.Signed(a) >= 0, NumberAt(line, 1), len)
    case Bltz => Branch(s, A.Signed(a) < 0, NumberAt(line, 1), len)
    case Bgtz => Branch(s, A.Signed(a) > 0, NumberAt(line, 1), len)
    case Bgt => Branch(s, A.Signed(a) > A.Signed(b), NumberAt(line, 2), len)
    case Ble => Branch(s, A.Signed(a) <= A.Signed(b), NumberAt(line, 2), len)
    case Bgtu => Branch(s, Above(a, b), NumberAt(line, 2), len)
    case Bleu => Branch(s, !Above(a, b), NumberAt(line, 2), len)
    case J => Next(s.(pc := H.Forward(s.pc, NumberAt(line, 0))))
    case Ret => Next(s.(pc := A.Even(X(s, RA))))
    case Jr => Next(s.(pc := A.Even(a)))
    case _ => NotModelled
  }

  /** The base register printed in parentheses at position k. */
  function BaseAt(line: seq<Shown>, k: nat): reg {
    if k < |line| && line[k].InParens? then line[k].n else 0
  }

  /** The operand of lui and auipc stands for the upper twenty bits. */
  function Upper(v: word): word { v << 12 }

  /** The fields an assembler makes of a base mnemonic and its operands, by the syntax of chapter 25; the tables of
      the disassembler play no part. */
  function ReadLine(kind: Kind, line: seq<Shown>): Fields {
    match kind
    case LoadUpper | AddUpperToPc => Fields(RegisterAt(line, 0), 0, 0, Upper(NumberAt(line, 1)))
    case JumpAndLink => Fields(RegisterAt(line, 0), 0, 0, NumberAt(line, 1))
    case JumpRegister => Fields(RegisterAt(line, 0), RegisterAt(line, 1), 0, NumberAt(line, 2))
    case Loads(_) => Fields(RegisterAt(line, 0), BaseAt(line, 2), 0, NumberAt(line, 1))
    case StoresTo(_) => Fields(0, BaseAt(line, 2), RegisterAt(line, 0), NumberAt(line, 1))
    case Branches(_) => Fields(0, RegisterAt(line, 0), RegisterAt(line, 1), NumberAt(line, 2))
    case WithImmediate(_) => Fields(RegisterAt(line, 0), RegisterAt(line, 1), 0, NumberAt(line, 2))
    case WithRegister(_) => Fields(RegisterAt(line, 0), RegisterAt(line, 1), RegisterAt(line, 2), 0)
    case Break | OtherKind => Fields(0, 0, 0, 0)
  }

  /** The number of operands the syntax asks for. */
  function Arity(kind: Kind): nat {
    match kind
    case LoadUpper | AddUpperToPc | JumpAndLink => 2
    case Break | OtherKind => 0
    case _ => 3
  }

  function PseudoArity(op: PseudoOp): nat {
    match op
    case Nop | Ret => 0
    case J | Jr => 1
    case Bgt | Ble | Bgtu | Bleu => 3
    case _ => 2
  }

  /** What a printed line means to an assembler. */
  function LineMeaning(op: Opcode, line: seq<Shown>, len: word, s: Arch): Effect {
    match op
    case Base(b) => if |line| == Arity(KindOf(b)) then ExecuteKind(KindOf(b), ReadLine(KindOf(b), line), len, s)
      else NotModelled
    case Pseudo(p) => if |line| == PseudoArity(p) then PseudoMeaning(p, line, len, s) else NotModelled
    case _ => NotModelled
  }

  // ----- base mnemonics

  /** The operands a kind of base instruction is printed with. */
  function KindFormat(kind: Kind): seq<Operand> {
    match kind
    case LoadUpper => [Rd, Imm]
    case AddUpperToPc => [Rd, PcOffset]
    case JumpAndLink => [Rd, PcOffset]
    case JumpRegister => [Rd, Rs1, Imm]
    case Break => []
    case Loads(_) => [Rd, Imm, Base1]
    case StoresTo(_) => [Rs2, Imm, Base1]
    case Branches(_) => [Rs1, Rs2, PcOffset]
    case WithImmediate(_) => [Rd, Rs1, Imm]
    case WithRegister(_) => [Rd, Rs1, Rs2]
    case OtherKind => []
  }

  lemma RegisterFormat(op: BaseOp)
    requires KindOf(op).WithRegister?
    ensures BaseFormat(op) == KindFormat(KindOf(op))
  {
  }

  lemma ImmediateFormat(op: BaseOp)
    requires KindOf(op).WithImmediate?
    ensures BaseFormat(op) == KindFormat(KindOf(op))
  {
  }

  lemma LoadFormat(op: BaseOp)
    requires op.Lb? || op.Lh? || op.Lw? || op.Lbu? || op.Lhu?
    ensures BaseFormat(op) == KindFormat(KindOf(op))
  {
  }

  lemma StoreFormat(op: BaseOp)
    requires op.Sb? || op.Sh? || op.Sw?
    ensures BaseFormat(op) == KindFormat(KindOf(op))
  {
  }

  lemma BranchFormat(op: BaseOp)
    requires op.Beq? || op.Bne? || op.Blt? || op.Bge? || op.Bltu? || op.Bgeu?
    ensures BaseFormat(op) == KindFormat(KindOf(op))
  {
  }

  lemma SingleFormat(op: BaseOp)
    requires op.Lui? || op.Auipc? || op.Jal? || op.Jalr? || op.Ebreak?
    ensures BaseFormat(op) == KindFormat(KindOf(op))
  {
  }

  /** The instructions that are neither immediate nor register-register arithmetic. */
  predicate NotArithmetic(op: BaseOp) {
    || op.Lb? || op.Lh? || op.Lw? || op.Lbu? || op.Lhu?
    || op.Sb? || op.Sh? || op.Sw?
    || op.Beq? || op.Bne? || op.Blt? || op.Bge? || op.Bltu? || op.Bgeu?
    || op.Lui? || op.Auipc? || op.Jal? || op.Jalr? || op.Ebreak?
  }

  lemma OthersAreArithmetic(op: BaseOp)
    requires KindOf(op) != OtherKind && !NotArithmetic(op)
    ensures KindOf(op).WithImmediate? || KindOf(op).WithRegister?
  {
  }

  lemma FormatOfKind(op: BaseOp)
    requires KindOf(op) != OtherKind
    ensures BaseFormat(op) == KindFormat(KindOf(op))
  {
    hide KindOf, BaseFormat, KindFormat;
    if !NotArithmetic(op) {
      OthersAreArithmetic(op);
      if KindOf(op).WithImmediate? {
        ImmediateFormat(op);
      } else {
        RegisterFormat(op);
      }
    } else if op.Lb? || op.Lh? || op.Lw? || op.Lbu? || op.Lhu? {
      LoadFormat(op);
    } else if op.Sb? || op.Sh? || op.Sw? {
      StoreFormat(op);
    } else if op.Lui? || op.Auipc? || op.Jal? || op.Jalr? || op.Ebreak? {
      SingleFormat(op);
    } else {
      BranchFormat(op);
    }
  }

  predicate TakesUpper(kind: Kind) { kind.LoadUpper? || kind.AddUpperToPc? }

  /** The line printed for f has the effect of an instruction with the fields g. */
  predicate ReadsAs(kind: Kind, f: Fields, g: Fields, len: word, s: Arch) {
    && |Print(KindFormat(kind), f)| == Arity(kind)
    && ExecuteKind(kind, ReadLine(kind, Print(KindFormat(kind), f)), len, s) == ExecuteKind(kind, g, len, s)
  }

  lemma ReadUpper(kind: Kind, f: Fields, len: word, s: Arch)
    requires TakesUpper(kind)
    ensures ReadsAs(kind, f, f.(imm := Upper(f.imm)), len, s)
  {
    hide AluEffect, Write, Jump, Branch, X, A.DoAlu, H.Forward, H.Load, H.StoreValue, H.ShouldBranch, Widened, Upper;
  }

  lemma ReadArithmetic(kind: Kind, f: Fields, len: word, s: Arch)
    requires kind.WithImmediate? || kind.WithRegister?
    ensures ReadsAs(kind, f, f, len, s)
  {
    hide AluEffect, Write, Jump, Branch, X, A.DoAlu, H.Forward, H.Load, H.StoreValue, H.ShouldBranch, Widened, Upper;
  }

  lemma ReadMemory(kind: Kind, f: Fields, len: word, s: Arch)
    requires kind.Loads? || kind.StoresTo? || kind.Branches?
    ensures ReadsAs(kind, f, f, len, s)
  {
    hide AluEffect, Write, Jump, Branch, X, A.DoAlu, H.Forward, H.Load, H.StoreValue, H.ShouldBranch, Widened, Upper;
  }

  lemma ReadJump(kind: Kind, f: Fields, len: word, s: Arch)
    requires kind.JumpAndLink? || kind.JumpRegister? || kind.Break? || kind.OtherKind?
    ensures ReadsAs(kind, f, f, len, s)
  {
    hide AluEffect, Write, Jump, Branch, X, A.DoAlu, H.Forward, H.Load, H.StoreValue, H.ShouldBranch, Widened, Upper;
  }

  /** The fields a printed line is read back as: the upper immediates are shifted once more. */
  lemma ReadPrinted(kind: Kind, f: Fields, len: word, s: Arch)
    ensures ReadsAs(kind, f, if TakesUpper(kind) then f.(imm := Upper(f.imm)) else f, len, s)
  {
    hide ReadsAs, Upper;
    if TakesUpper(kind) {
      ReadUpper(kind, f, len, s);
    } else if kind.WithImmediate? || kind.WithRegister? {
      ReadArithmetic(kind, f, len, s);
    } else if kind.Loads? || kind.StoresTo? || kind.Branches? {
      ReadMemory(kind, f, len, s);
    } else {
      ReadJump(kind, f, len, s);
    }
  }

  /** The operand printed for an upper immediate is right only when it is zero, or the result is thrown away. */
  predicate UpperIsRight(op: BaseOp, f: Fields) {
    op.Lui? || op.Auipc? ==> f.imm == 0 || Index(f.rd) == 0
  }

  lemma UpperFixed(imm: word)
    ensures Upper(imm) == imm <==> imm == 0
  {
  }

  lemma UpperSumFixed(pc: word, imm: word)
    ensures H.Forward(pc, Upper(imm)) == H.Forward(pc, imm) ==> imm == 0
  {
  }

  lemma WritesDiffer(s: Arch, rd: reg, v: word, w: word, len: word)
    ensures Write(s, rd, v, len) == Write(s, rd, w, len) <==> v == w || Index(rd) == 0
  {
    hide H.Forward, Index;
    var i := Index(rd);
    if i != 0 && H.SetReg(s.x, i, v) == H.SetReg(s.x, i, w) {
      assert H.SetReg(s.x, i, v)[i] == v && H.SetReg(s.x, i, w)[i] == w;
    }
  }

  lemma AuipcEffect(s: Arch, rd: reg, pc: word, imm: word, len: word)
    ensures AluEffect(s, A.Auipc, rd, pc, imm, len) == Write(s, rd, H.Forward(pc, imm), len)
  {
    hide A.Word, A.Value, A.Signed, A.ShiftLeft, A.ShiftRight, A.ShiftRightArithmetic, Write;
  }

  lemma UpperKinds(op: BaseOp)
    ensures op.Lui? <==> KindOf(op).LoadUpper?
    ensures op.Auipc? <==> KindOf(op).AddUpperToPc?
  {
  }

  lemma UpperEffect(kind: Kind, f: Fields, len: word, s: Arch)
    requires TakesUpper(kind)
    ensures ExecuteKind(kind, f.(imm := Upper(f.imm)), len, s) == ExecuteKind(kind, f, len, s)
        <==> f.imm == 0 || Index(f.rd) == 0
  {
    hide AluEffect, Write, Jump, Branch, X, A.DoAlu, H.Forward, H.Load, H.StoreValue, H.ShouldBranch, Upper, Index;
    UpperFixed(f.imm);
    if kind.LoadUpper? {
      WritesDiffer(s, f.rd, Upper(f.imm), f.imm, len);
    } else {
      AuipcEffect(s, f.rd, s.pc, f.imm, len);
      AuipcEffect(s, f.rd, s.pc, Upper(f.imm), len);
      WritesDiffer(s, f.rd, H.Forward(s.pc, Upper(f.imm)), H.Forward(s.pc, f.imm), len);
      UpperSumFixed(s.pc, f.imm);
    }
  }

  /** The line of a base instruction has the effect of the instruction, in any state, exactly when its upper
      immediate is right; every other operand is printed in the place and the form an assembler reads it. */
  lemma BaseLineMeaning(op: BaseOp, f: Fields, len: word, s: Arch)
    requires KindOf(op) != OtherKind
    ensures LineMeaning(Base(op), Print(FormatOf(Base(op)), f), len, s) == Execute(op, f, len, s)
        <==> UpperIsRight(op, f)
  {
    hide KindOf, BaseFormat, KindFormat, ReadLine, Print, ExecuteKind, Index, Arity, Upper;
    FormatOfKind(op);
    UpperKinds(op);
    ReadPrinted(KindOf(op), f, len, s);
    if TakesUpper(KindOf(op)) {
      UpperEffect(KindOf(op), f, len, s);
    }
  }

  // ----- the pseudo-instructions

  /** What the constraints of the rows for op come to. */
  predicate Needs(op: PseudoOp, f: Fields) {
    match op
    case Nop => f.rd == 0 && f.rs1 == 0 && f.imm == 0
    case Mv => f.imm == 0
    case Not => f.imm == 0xFFFF_FFFF
    case Seqz => f.imm == 1
    case Neg | Snez | Sgtz | Blez | Bgtz => f.rs1 == 0
    case Sltz | Beqz | Bnez | Bgez | Bltz => f.rs2 == 0
    case J => f.rd == 0
    case Ret => f.rd == 0 && f.rs1 == RA
    case Jr => f.rd == 0 && f.imm == 0
    case _ => true
  }

  lemma JumpRowsGiveNeeds(op: BaseOp, f: Fields, k: nat)
    requires op.Jal? || op.Jalr?
    requires k < |TransferRows(op)| && Matches(TransferRows(op)[k], f) && TransferRows(op)[k].op.Pseudo?
    ensures Needs(TransferRows(op)[k].op.pseudo, f)
  {
    var constraints := TransferRows(op)[k].constraints;
    assert |constraints| > 0 ==> Holds(constraints[0], f);
    assert |constraints| > 1 ==> Holds(constraints[1], f);
  }

  lemma SignedRowsGiveNeeds(op: BaseOp, f: Fields, k: nat)
    requires op.Blt? || op.Bge?
    requires k < |TransferRows(op)| && Matches(TransferRows(op)[k], f) && TransferRows(op)[k].op.Pseudo?
    ensures Needs(TransferRows(op)[k].op.pseudo, f)
  {
    var constraints := TransferRows(op)[k].constraints;
    assert |constraints| > 0 ==> Holds(constraints[0], f);
  }

  lemma BranchRowsGiveNeeds(op: BaseOp, f: Fields, k: nat)
    requires !op.Jal? && !op.Jalr? && !op.Blt? && !op.Bge?
    requires k < |TransferRows(op)| && Matches(TransferRows(op)[k], f) && TransferRows(op)[k].op.Pseudo?
    ensures Needs(TransferRows(op)[k].op.pseudo, f)
  {
    var constraints := TransferRows(op)[k].constraints;
    assert |constraints| > 0 ==> Holds(constraints[0], f);
  }

  lemma ArithmeticRowsGiveNeeds(op: BaseOp, f: Fields, k: nat)
    requires k < |ArithmeticRows(op)| && Matches(ArithmeticRows(op)[k], f) && ArithmeticRows(op)[k].op.Pseudo?
    ensures Needs(ArithmeticRows(op)[k].op.pseudo, f)
  {
    var constraints := ArithmeticRows(op)[k].constraints;
    assert |constraints| > 0 ==> Holds(constraints[0], f);
    assert |constraints| > 1 ==> Holds(constraints[1], f);
    assert |constraints| > 2 ==> Holds(constraints[2], f);
  }

  lemma RowsGiveNeeds(op: BaseOp, f: Fields, k: nat)
    requires KindOf(op) != OtherKind
    requires k < |PseudoRows(op)| && Matches(PseudoRows(op)[k], f) && PseudoRows(op)[k].op.Pseudo?
    ensures Needs(PseudoRows(op)[k].op.pseudo, f)
  {
    hide KindOf, TransferRows, ArithmeticRows, Matches, Needs;
    IntegerKindsHaveIntegerRows(op);
    if op.Jal? || op.Jalr? {
      JumpRowsGiveNeeds(op, f, k);
    } else if op.Blt? || op.Bge? {
      SignedRowsGiveNeeds(op, f, k);
    } else if PseudoRows(op) == TransferRows(op) {
      BranchRowsGiveNeeds(op, f, k);
    } else {
      ArithmeticRowsGiveNeeds(op, f, k);
    }
  }

  lemma IntegerKindsHaveIntegerRows(op: BaseOp)
    requires KindOf(op) != OtherKind
    ensures PseudoRows(op) == TransferRows(op) || PseudoRows(op) == ArithmeticRows(op)
  {
    hide TransferRows, ArithmeticRows, CsrRows, WideRows, FloatRows;
  }

  lemma MvEffect(s: Arch, rd: reg, a: word, len: word)
    ensures AluEffect(s, A.Add, rd, a, 0, len) == Write(s, rd, a, len)
  {
    hide A.Word, A.Value, A.Signed, A.ShiftLeft, A.ShiftRight, A.ShiftRightArithmetic, Write;
  }

  lemma NotEffect(s: Arch, rd: reg, a: word, len: word)
    ensures AluEffect(s, A.Xor, rd, a, 0xFFFF_FFFF, len) == Write(s, rd, Inverted(a), len)
  {
    hide A.Word, A.Value, A.Signed, A.ShiftLeft, A.ShiftRight, A.ShiftRightArithmetic, Write;
  }

  lemma NegEffect(s: Arch, rd: reg, a: word, len: word)
    ensures AluEffect(s, A.Sub, rd, 0, a, len) == Write(s, rd, Negated(a), len)
  {
    hide A.Word, A.Value, A.Signed, A.ShiftLeft, A.ShiftRight, A.ShiftRightArithmetic, Write;
  }

  lemma SeqzEffect(s: Arch, rd: reg, a: word, len: word)
    ensures AluEffect(s, A.Sltu, rd, a, 1, len) == Write(s, rd, Flag(C.IsZero(a)), len)
  {
    hide A.Word, A.Value, A.Signed, A.ShiftLeft, A.ShiftRight, A.ShiftRightArithmetic, Write;
  }

  lemma SnezEffect(s: Arch, rd: reg, a: word, len: word)
    ensures AluEffect(s, A.Sltu, rd, 0, a, len) == Write(s, rd, Flag(!C.IsZero(a)), len)
  {
    hide A.Word, A.Value, A.Signed, A.ShiftLeft, A.ShiftRight, A.ShiftRightArithmetic, Write;
  }

  lemma SltzEffect(s: Arch, rd: reg, a: word, len: word)
    ensures AluEffect(s, A.Slt, rd, a, 0, len) == Write(s, rd, Flag(A.Signed(a) < 0), len)
  {
    hide A.Word, A.ShiftLeft, A.ShiftRight, A.ShiftRightArithmetic, Write;
  }

  lemma SgtzEffect(s: Arch, rd: reg, a: word, len: word)
    ensures AluEffect(s, A.Slt, rd, 0, a, len) == Write(s, rd, Flag(A.Signed(a) > 0), len)
  {
    hide A.Word, A.ShiftLeft, A.ShiftRight, A.ShiftRightArithmetic, Write;
  }

  lemma SignedZero()
    ensures A.Signed(0) == 0
  {
  }

  lemma EqualsZero(a: word)
    ensures H.ShouldBranch(a, 0, H.Beq) == C.IsZero(a)
    ensures H.ShouldBranch(a, 0, H.Bne) == !C.IsZero(a)
  {
    hide A.Signed;
  }

  lemma ComparesWithZero(a: word)
    ensures H.ShouldBranch(0, a, H.Bge) == (A.Signed(a) <= 0)
    ensures H.ShouldBranch(a, 0, H.Bge) == (A.Signed(a) >= 0)
    ensures H.ShouldBranch(a, 0, H.Blt) == (A.Signed(a) < 0)
    ensures H.ShouldBranch(0, a, H.Blt) == (A.Signed(a) > 0)
  {
    hide A.Signed;
    SignedZero();
  }

  lemma SwappedSigned(a: word, b: word)
    ensures H.ShouldBranch(a, b, H.Blt) == (A.Signed(b) > A.Signed(a))
    ensures H.ShouldBranch(a, b, H.Bge) == (A.Signed(b) <= A.Signed(a))
  {
    hide A.Signed;
  }

  lemma SwappedUnsigned(a: word, b: word)
    ensures H.ShouldBranch(a, b, H.Bltu) == Above(b, a)
    ensures H.ShouldBranch(a, b, H.Bgeu) == !Above(b, a)
  {
    hide A.Signed;
  }

  /** x0 reads as zero, and a write to it only moves the program counter. */
  lemma ZeroReads(s: Arch, v: word, target: word, len: word)
    requires ZeroHardwired(s)
    ensures X(s, 0) == 0
    ensures Write(s, 0, v, len) == Next(s.(pc := H.Forward(s.pc, len)))
    ensures Jump(s, 0, target, len) == Next(s.(pc := target))
  {
  }

  /** The line of a pseudo-instruction means the instruction it stands for. */
  predicate PseudoMeansBase(op: PseudoOp, f: Fields, len: word, s: Arch) {
    PseudoMeaning(op, Print(PseudoFormat(op), f), len, s) == Execute(BaseOf(op), f, len, s)
  }

  lemma ImmediateKinds()
    ensures KindOf(Addi) == WithImmediate(A.Add) && KindOf(Xori) == WithImmediate(A.Xor)
        && KindOf(Sltiu) == WithImmediate(A.Sltu)
  {
  }

  lemma RegisterKinds()
    ensures KindOf(Sub) == WithRegister(A.Sub) && KindOf(Slt) == WithRegister(A.Slt)
        && KindOf(Sltu) == WithRegister(A.Sltu)
  {
  }

  lemma BranchKinds()
    ensures KindOf(Beq) == Branches(H.Beq) && KindOf(Bne) == Branches(H.Bne) && KindOf(Blt) == Branches(H.Blt)
    ensures KindOf(Bge) == Branches(H.Bge) && KindOf(Bltu) == Branches(H.Bltu) && KindOf(Bgeu) == Branches(H.Bgeu)
  {
  }

  lemma JumpKinds()
    ensures KindOf(Jal) == JumpAndLink && KindOf(Jalr) == JumpRegister
  {
  }

  lemma MoveMeaning(op: PseudoOp, f: Fields, len: word, s: Arch)
    requires op.Nop? || op.Mv?
    requires Needs(op, f) && ZeroHardwired(s)
    ensures PseudoMeansBase(op, f, len, s)
  {
    hide AluEffect, Write, Jump, Branch, X, A.DoAlu, A.Signed, A.Even, H.Forward, H.ShouldBranch, KindOf,
      ZeroHardwired;
    ImmediateKinds();
    ZeroReads(s, 0, 0, len);
    match op {
      case Nop =>
        MvEffect(s, 0, X(s, 0), len);
        ZeroReads(s, X(s, 0), 0, len);
      case Mv => MvEffect(s, f.rd, X(s, f.rs1), len);
    }
  }

  lemma ImmediateMeaning(op: PseudoOp, f: Fields, len: word, s: Arch)
    requires op.Not? || op.Seqz?
    requires Needs(op, f) && ZeroHardwired(s)
    ensures PseudoMeansBase(op, f, len, s)
  {
    hide AluEffect, Write, Jump, Branch, X, A.DoAlu, A.Signed, A.Even, H.Forward, H.ShouldBranch, KindOf,
      ZeroHardwired;
    ImmediateKinds();
    ZeroReads(s, 0, 0, len);
    match op {
      case Not => NotEffect(s, f.rd, X(s, f.rs1), len);
      case Seqz => SeqzEffect(s, f.rd, X(s, f.rs1), len);
    }
  }

  lemma RegisterMeaning(op: PseudoOp, f: Fields, len: word, s: Arch)
    requires op.Neg? || op.Snez?
    requires Needs(op, f) && ZeroHardwired(s)
    ensures PseudoMeansBase(op, f, len, s)
  {
    hide AluEffect, Write, Jump, Branch, X, A.DoAlu, A.Signed, A.Even, H.Forward, H.ShouldBranch, KindOf,
      ZeroHardwired;
    RegisterKinds();
    ZeroReads(s, 0, 0, len);
    match op {
      case Neg => NegEffect(s, f.rd, X(s, f.rs2), len);
      case Snez => SnezEffect(s, f.rd, X(s, f.rs2), len);
    }
  }

  lemma SignMeaning(op: PseudoOp, f: Fields, len: word, s: Arch)
    requires op.Sltz? || op.Sgtz?
    requires Needs(op, f) && ZeroHardwired(s)
    ensures PseudoMeansBase(op, f, len, s)
  {
    hide AluEffect, Write, Jump, Branch, X, A.DoAlu, A.Signed, A.Even, H.Forward, H.ShouldBranch, KindOf,
      ZeroHardwired;
    RegisterKinds();
    ZeroReads(s, 0, 0, len);
    match op {
      case Sltz => SltzEffect(s, f.rd, X(s, f.rs1), len);
      case Sgtz => SgtzEffect(s, f.rd, X(s, f.rs2), len);
    }
  }

  lemma EqualityBranchMeaning(op: PseudoOp, f: Fields, len: word, s: Arch)
    requires op.Beqz? || op.Bnez?
    requires Needs(op, f) && ZeroHardwired(s)
    ensures PseudoMeansBase(op, f, len, s)
  {
    hide AluEffect, Write, Jump, Branch, X, A.DoAlu, A.Signed, A.Even, H.Forward, H.ShouldBranch, KindOf,
      ZeroHardwired;
    BranchKinds();
    ZeroReads(s, 0, 0, len);
    EqualsZero(X(s, f.rs1));
  }

  lemma SignBranchMeaning(op: PseudoOp, f: Fields, len: word, s: Arch)
    requires op.Bltz? || op.Bgez?
    requires Needs(op, f) && ZeroHardwired(s)
    ensures PseudoMeansBase(op, f, len, s)
  {
    hide AluEffect, Write, Jump, Branch, X, A.DoAlu, A.Signed, A.Even, H.Forward, H.ShouldBranch, KindOf,
      ZeroHardwired;
    BranchKinds();
    ZeroReads(s, 0, 0, len);
    ComparesWithZero(X(s, f.rs1));
  }

  lemma OrderBranchMeaning(op: PseudoOp, f: Fields, len: word, s: Arch)
    requires op.Bgtz? || op.Blez?
    requires Needs(op, f) && ZeroHardwired(s)
    ensures PseudoMeansBase(op, f, len, s)
  {
    hide AluEffect, Write, Jump, Branch, X, A.DoAlu, A.Signed, A.Even, H.Forward, H.ShouldBranch, KindOf,
      ZeroHardwired;
    BranchKinds();
    ZeroReads(s, 0, 0, len);
    ComparesWithZero(X(s, f.rs2));
  }

  lemma SwappedBranchMeaning(op: PseudoOp, f: Fields, len: word, s: Arch)
    requires op.Bgt? || op.Ble?
    requires Needs(op, f) && ZeroHardwired(s)
    ensures PseudoMeansBase(op, f, len, s)
  {
    hide AluEffect, Write, Jump, Branch, X, A.DoAlu, A.Signed, A.Even, H.Forward, H.ShouldBranch, KindOf,
      ZeroHardwired;
    BranchKinds();
    ZeroReads(s, 0, 0, len);
    SwappedSigned(X(s, f.rs1), X(s, f.rs2));
  }

  lemma UnsignedBranchMeaning(op: PseudoOp, f: Fields, len: word, s: Arch)
    requires op.Bgtu? || op.Bleu?
    requires Needs(op, f) && ZeroHardwired(s)
    ensures PseudoMeansBase(op, f, len, s)
  {
    hide AluEffect, Write, Jump, Branch, X, A.DoAlu, A.Signed, A.Even, H.Forward, H.ShouldBranch, KindOf,
      ZeroHardwired;
    BranchKinds();
    ZeroReads(s, 0, 0, len);
    SwappedUnsigned(X(s, f.rs1), X(s, f.rs2));
  }

  lemma JumpMeaning(op: PseudoOp, f: Fields, len: word, s: Arch)
    requires op.J?
    requires Needs(op, f) && ZeroHardwired(s)
    ensures PseudoMeansBase(op, f, len, s)
  {
    hide AluEffect, Write, Jump, Branch, X, A.DoAlu, A.Signed, A.Even, H.Forward, H.ShouldBranch, KindOf,
      ZeroHardwired;
    JumpKinds();
    ZeroReads(s, 0, 0, len);
    D.JalValue(s.pc, f.imm);
    ZeroReads(s, 0, H.Forward(s.pc, f.imm), len);
  }

  lemma JumpRegisterMeaning(op: PseudoOp, f: Fields, len: word, s: Arch)
    requires op.Jr? || op.Ret?
    requires Needs(op, f) && ZeroHardwired(s)
    requires op.Ret? ==> f.imm == 0
    ensures PseudoMeansBase(op, f, len, s)
  {
    hide AluEffect, Write, Jump, Branch, X, A.DoAlu, A.Signed, A.Even, H.Forward, H.ShouldBranch, KindOf,
      ZeroHardwired;
    JumpKinds();
    ZeroReads(s, 0, 0, len);
    D.JumpValue(X(s, f.rs1));
    ZeroReads(s, 0, A.Even(X(s, f.rs1)), len);
  }

  /** The pseudo-instructions that stand for RV32IM instructions. */
  predicate ForInteger(op: PseudoOp) {
    || op.Nop? || op.Mv? || op.Not? || op.Seqz? || op.Neg? || op.Snez? || op.Sltz? || op.Sgtz? || op.Beqz? || op.Bnez?
    || op.Bltz? || op.Bgez? || op.Bgtz? || op.Blez? || op.Bgt? || op.Ble? || op.Bgtu? || op.Bleu? || op.J? || op.Jr?
        || op.Ret?
  }

  lemma IntegerPseudos(op: PseudoOp)
    requires KindOf(BaseOf(op)) != OtherKind
    ensures ForInteger(op)
  {
  }

  /** Every pseudo-instruction for an RV32IM instruction, printed, means that instruction. */
  lemma PseudoLineMeaning(op: PseudoOp, f: Fields, len: word, s: Arch)
    requires KindOf(BaseOf(op)) != OtherKind
    requires Needs(op, f) && ZeroHardwired(s)
    requires op.Ret? ==> f.imm == 0
    ensures PseudoMeansBase(op, f, len, s)
  {
    hide KindOf, BaseOf, Needs, PseudoMeansBase, ZeroHardwired;
    IntegerPseudos(op);
    if op.Nop? || op.Mv? {
      MoveMeaning(op, f, len, s);
    } else if op.Not? || op.Seqz? {
      ImmediateMeaning(op, f, len, s);
    } else if op.Neg? || op.Snez? {
      RegisterMeaning(op, f, len, s);
    } else if op.Sltz? || op.Sgtz? {
      SignMeaning(op, f, len, s);
    } else if op.Beqz? || op.Bnez? {
      EqualityBranchMeaning(op, f, len, s);
    } else if op.Bltz? || op.Bgez? {
      SignBranchMeaning(op, f, len, s);
    } else if op.Bgtz? || op.Blez? {
      OrderBranchMeaning(op, f, len, s);
    } else if op.Bgt? || op.Ble? {
      SwappedBranchMeaning(op, f, len, s);
    } else if op.Bgtu? || op.Bleu? {
      UnsignedBranchMeaning(op, f, len, s);
    } else if op.J? {
      JumpMeaning(op, f, len, s);
    } else {
      JumpRegisterMeaning(op, f, len, s);
    }
  }

  /** What the printed line of a decoded RV32IM instruction means. */
  function PrintedMeaning(op: BaseOp, f: Fields, len: word, s: Arch): Effect {
    var lifted := Lift(Base(op), f);
    LineMeaning(lifted, Print(FormatOf(lifted), f), len, s)
  }

  /** The lines that do not say what was decoded: an upper immediate printed unshifted, or a displacement left out
      of ret. */
  predicate Misprinted(op: BaseOp, f: Fields) {
    !UpperIsRight(op, f) || (op == Jalr && f.rd == 0 && f.rs1 == RA && f.imm != 0)
  }

  lemma UpperIsNotLifted(op: BaseOp, f: Fields)
    requires op.Lui? || op.Auipc?
    ensures Lift(Base(op), f) == Base(op)
  {
  }

  lemma OnlyJalrIsReturn(op: BaseOp, f: Fields)
    requires Lift(Base(op), f) == Pseudo(Ret)
    ensures op == Jalr
  {
    hide PseudoRows, PseudoCodec, BaseCodec, CompressedCodec;
    LiftIsInvertible(Base(op), f);
  }

  lemma ReturnNeeds(op: BaseOp, f: Fields)
    requires Lift(Base(op), f) == Pseudo(Ret)
    ensures op == Jalr && f.rd == 0 && f.rs1 == RA
  {
    hide KindOf, PseudoRows, PseudoCodec, BaseCodec, CompressedCodec;
    OnlyJalrIsReturn(op, f);
    var k := FirstMatch(PseudoRows(Jalr), f, 0);
    JumpKinds();
    RowsGiveNeeds(Jalr, f, k);
  }

  /** In every state with x0 = 0 the printed line, read as an assembler reads it, has the effect of the decoded
      instruction, unless it is misprinted. */
  lemma LiftPreservesMeaning(op: BaseOp, f: Fields, len: word, s: Arch)
    requires KindOf(op) != OtherKind && ZeroHardwired(s) && !Misprinted(op, f)
    ensures PrintedMeaning(op, f, len, s) == Execute(op, f, len, s)
  {
    hide KindOf, PseudoRows, Matches, Needs, ZeroHardwired, Execute, Print, PseudoMeaning, PseudoFormat, BaseFormat,
      BaseOf, LineMeaning, PseudoCodec, BaseCodec, UpperIsRight;
    var rows := PseudoRows(op);
    var k := FirstMatch(rows, f, 0);
    BaseLineMeaning(op, f, len, s);
    if k < |rows| {
      RowsLeadBack(op, k);
      if rows[k].op.Pseudo? {
        RowsGiveNeeds(op, f, k);
        if rows[k].op.pseudo.Ret? {
          ReturnNeeds(op, f);
        }
        PseudoLineMeaning(rows[k].op.pseudo, f, len, s);
        PseudoLine(rows[k].op.pseudo, f, len, s);
      }
    }
  }

  lemma PseudoLine(op: PseudoOp, f: Fields, len: word, s: Arch)
    requires KindOf(BaseOf(op)) != OtherKind
    ensures LineMeaning(Pseudo(op), Print(FormatOf(Pseudo(op)), f), len, s)
        == PseudoMeaning(op, Print(PseudoFormat(op), f), len, s)
  {
    hide PseudoMeaning, PseudoFormat, Print, PseudoArity, ForInteger, KindOf, BaseOf, ReadLine, ExecuteKind, Arity,
      BaseFormat;
    IntegerPseudos(op);
    PseudoArities(op, f);
  }

  lemma PseudoArities(op: PseudoOp, f: Fields)
    requires ForInteger(op)
    ensures |Print(PseudoFormat(op), f)| == PseudoArity(op)
  {
    hide Show;
  }

  // ----- the misprinted lines, exactly

  /** The printed line agrees with the instruction when ra holds v. */
  predicate AgreesWhenRa(op: BaseOp, f: Fields, len: word, s: Arch, v: word) {
    var t := s.(x := H.SetReg(s.x, 1, v));
    PrintedMeaning(op, f, len, t) == Execute(op, f, len, t)
  }

  /** A return address for which a nonzero displacement shows. */
  function Telltale(imm: word): word { if imm == 1 then 1 else 0 }

  lemma JalrTarget(a: word, imm: word)
    ensures A.DoAlu(A.Jalr, a, imm) == A.Even(H.Forward(a, imm))
  {
    hide A.Word, A.Value, A.Signed, A.Even;
  }

  lemma OddStepShows(imm: word)
    requires imm == 1
    ensures A.Even(H.Forward(1, imm)) != A.Even(1)
  {
  }

  lemma StepShows(imm: word)
    requires imm != 0 && imm != 1
    ensures A.Even(H.Forward(0, imm)) != A.Even(0)
  {
  }

  lemma TelltaleShows(imm: word)
    requires imm != 0
    ensures A.DoAlu(A.Jalr, Telltale(imm), imm) != A.Even(Telltale(imm))
  {
    hide A.DoAlu, A.Even, H.Forward;
    JalrTarget(Telltale(imm), imm);
    if imm == 1 {
      OddStepShows(imm);
    } else {
      StepShows(imm);
    }
  }

  lemma ReturnTargets(f: Fields, len: word, s: Arch)
    requires f.rd == 0 && f.rs1 == RA && ZeroHardwired(s)
    ensures Execute(Jalr, f, len, s) == Next(s.(pc := A.DoAlu(A.Jalr, X(s, RA), f.imm)))
    ensures PseudoMeaning(Ret, Print(PseudoFormat(Ret), f), len, s) == Next(s.(pc := A.Even(X(s, RA))))
  {
    hide AluEffect, Write, Jump, Branch, X, A.DoAlu, H.Forward, A.Even, KindOf, ZeroHardwired;
    JumpKinds();
    ZeroReads(s, 0, A.DoAlu(A.Jalr, X(s, RA), f.imm), len);
  }

  lemma RaHolds(s: Arch, v: word)
    requires ZeroHardwired(s)
    ensures X(s.(x := H.SetReg(s.x, 1, v)), RA) == v
    ensures ZeroHardwired(s.(x := H.SetReg(s.x, 1, v)))
  {
  }

  /** A jalr is shown as ret whatever its immediate, because the row does not check it; the line then means the same
      for every value of ra exactly when the immediate is zero. */
  lemma RetIsExactOnlyForZero(f: Fields, len: word, s: Arch)
    requires f.rd == 0 && f.rs1 == RA && ZeroHardwired(s)
    ensures Lift(Base(Jalr), f) == Pseudo(Ret)
    ensures (forall v :: AgreesWhenRa(Jalr, f, len, s, v)) <==> f.imm == 0
  {
    hide AluEffect, Write, Jump, Branch, X, A.DoAlu, H.Forward, A.Even, KindOf, ZeroHardwired, Execute, PseudoMeaning,
      PseudoFormat, Print, H.SetReg, Telltale;
    assert Matches(PseudoRows(Jalr)[0], f);
    JumpKinds();
    if f.imm == 0 {
      forall v
        ensures AgreesWhenRa(Jalr, f, len, s, v)
      {
        RaHolds(s, v);
        LiftPreservesMeaning(Jalr, f, len, s.(x := H.SetReg(s.x, 1, v)));
      }
    } else {
      var v := Telltale(f.imm);
      RaHolds(s, v);
      ReturnTargets(f, len, s.(x := H.SetReg(s.x, 1, v)));
      TelltaleShows(f.imm);
      assert !AgreesWhenRa(Jalr, f, len, s, v);
    }
  }

  lemma UpperIsWrongEverywhere(op: BaseOp, f: Fields, len: word, s: Arch)
    requires KindOf(op) != OtherKind && !UpperIsRight(op, f)
    ensures PrintedMeaning(op, f, len, s) != Execute(op, f, len, s)
  {
    hide KindOf, Execute, LineMeaning, FormatOf, Lift, Index;
    UpperIsNotLifted(op, f);
    BaseLineMeaning(op, f, len, s);
  }

  /** The printed line has the effect of the instruction for every value of ra exactly when it is not misprinted. */
  lemma LineIsExact(op: BaseOp, f: Fields, len: word, s: Arch)
    requires KindOf(op) != OtherKind && ZeroHardwired(s)
    ensures (forall v :: AgreesWhenRa(op, f, len, s, v)) <==> !Misprinted(op, f)
  {
    hide KindOf, Execute, PrintedMeaning, H.SetReg, ZeroHardwired, UpperIsRight, Lift;
    if !UpperIsRight(op, f) {
      UpperIsWrongEverywhere(op, f, len, s.(x := H.SetReg(s.x, 1, 0)));
      assert !AgreesWhenRa(op, f, len, s, 0);
    } else if Misprinted(op, f) {
      RetIsExactOnlyForZero(f, len, s);
    } else {
      forall v
        ensures AgreesWhenRa(op, f, len, s, v)
      {
        RaHolds(s, v);
        LiftPreservesMeaning(op, f, len, s.(x := H.SetReg(s.x, 1, v)));
      }
    }
  }

  /** lui a0, 0x12345 is decoded as it should be, and its line says something else in every state. */
  lemma LuiIsMisprinted(isa: Isa, prior: Fields, s: Arch)
    ensures OpcodeOf(0x12345537, isa) == Base(Lui) && OperandsOf(0x12345537, U, prior) == Fields(10, 0, 0, 0x1234_5000)
    ensures PrintedMeaning(Lui, Fields(10, 0, 0, 0x1234_5000), 4, s)
        != Execute(Lui, Fields(10, 0, 0, 0x1234_5000), 4, s)
  {
    hide Quadrant0, Quadrant1, Quadrant2, PrintedMeaning, Execute;
    LuiInput();
    UpperIsWrongEverywhere(Lui, Fields(10, 0, 0, 0x1234_5000), 4, s);
  }

  lemma LuiInput()
    ensures KindOf(Lui) == LoadUpper && !UpperIsRight(Lui, Fields(10, 0, 0, 0x1234_5000))
  {
  }

  // ----- the whole pipeline on a compressed word

  lemma ExpansionKinds(i: C.Instruction)
    ensures KindOf(D.Expansion(i).0) != OtherKind
    ensures D.Expansion(i).0 == Jalr ==> D.Expansion(i).1.imm == 0
  {
    hide KindOf;
    D.ImmediateKinds();
    D.RegisterKinds();
    D.MemoryKinds();
  }

  /** The upper immediate of a c.lui is never zero. */
  lemma LuiIsNonzero(inst: inst64, i: C.Instruction)
    requires C.Decode(inst) == C.Some(i) && i.Lui?
    ensures i.imm != 0
  {
    hide C.Reg5, C.Reg3, C.Imm6, C.ImmJ, C.ImmB, C.Imm16sp, C.ImmLui, C.Imm4spn, C.ImmW, C.ImmLwsp, C.ImmSwsp,
      C.Shamt;
  }

  lemma OnlyLuiIsUpper(i: C.Instruction)
    ensures UpperIsRight(D.Expansion(i).0, D.Expansion(i).1) <==> (i.Lui? ==> i.imm == 0 || Index(i.rd) == 0)
  {
    hide Index;
  }

  /** The line printed for a compressed word has the effect chapter 16 gives the word, in any state with x0 = 0,
      exactly when the word is not a c.lui into a register that keeps its value. */
  lemma CompressedLinePreservesMeaning(inst: inst64, i: C.Instruction, s: Arch, prior: Fields)
    requires C.Decode(inst) == C.Some(i) && ZeroHardwired(s) && !D.MarkedIllegal(i)
    ensures D.Expanded(inst, Rv32, prior).Base?
    ensures var f := OperandsOf(inst, CodecOf(OpcodeOf(inst, Rv32)), prior);
      PrintedMeaning(D.Expanded(inst, Rv32, prior).base, f, 2, s) == C.Meaning(i, s) <==> !(i.Lui? && Index(i.rd) != 0)
  {
    hide OpcodeOf, CodecOf, OperandsOf, D.Decompress, Execute, C.Decode, C.Meaning, D.Expansion, D.MarkedIllegal,
      D.Expanded, Lift, PrintedMeaning, KindOf, ZeroHardwired, Index, UpperIsRight;
    D.WordExpands(inst, i, prior);
    D.ExpansionPreservesMeaning(inst, i, s, prior);
    ExpansionKinds(i);
    OnlyLuiIsUpper(i);
    var (op, f) := D.Expansion(i);
    if i.Lui? {
      LuiIsNonzero(inst, i);
    }
    if !UpperIsRight(op, f) {
      UpperIsWrongEverywhere(op, f, 2, s);
    } else {
      LiftPreservesMeaning(op, f, 2, s);
    }
  }
}
