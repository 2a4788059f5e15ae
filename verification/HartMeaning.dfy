/** The simulator and the disassembler agree: when the decoder hands the hart the operation that stands for an
    instruction, a step has the effect the disassembler's reading of that instruction has. */
module HartMeaning {
  import A = Alu
  import C = CompressedSpec
  import D = DisasCompressed
  import opened FlatMemory
  import opened HartSpec
  import opened HartInterrupts
  import opened HartEffects
  import opened Architecture
  import opened DisasDecode
  import opened DisasMeaning
  import opened DisasTables

  /** The kinds whose operation follows from the handlers; how the decoder renders lui is not known here. */
  predicate HasOperation(kind: Kind) {
    !kind.LoadUpper? && !kind.Break? && !kind.OtherKind?
  }

  /** The decoded operation that stands for an instruction with these operand fields. */
  function OperationFor(kind: Kind, f: Fields, compressed: bool): Op
    requires HasOperation(kind)
  {
    var rd, rs1, rs2 := Index(f.rd), Index(f.rs1), Index(f.rs2);
    match kind
    case AddUpperToPc => Op(f.imm, AluType(A.Auipc), AluTarget, rd, rs1, rs2, true, true, compressed)
    case JumpAndLink => Op(f.imm, AluType(A.Jal), AluTarget, rd, rs1, rs2, true, true, compressed)
    case JumpRegister => Op(f.imm, AluType(A.Jalr), AluTarget, rd, rs1, rs2, true, false, compressed)
    case WithImmediate(alu) => Op(f.imm, AluType(alu), AluTarget, rd, rs1, rs2, true, false, compressed)
    case WithRegister(alu) => Op(f.imm, AluType(alu), AluTarget, rd, rs1, rs2, false, false, compressed)
    case Loads(load) => Op(f.imm, LoadType(load), LoadTarget, rd, rs1, rs2, true, false, compressed)
    case StoresTo(store) => Op(f.imm, StoreType(store), StoreTarget, rd, rs1, rs2, true, false, compressed)
    case Branches(branch) => Op(f.imm, BranchType(branch), BranchTarget, rd, rs1, rs2, true, false, compressed)
  }

  /** What an instruction sees of the hart, and what it has left behind. */
  function Before(h: Hart): Arch { Arch(h.gprs.x, h.pc.pc, h.mem) }
  function After(h: Hart): Arch { Arch(h.gprs.x, h.pc.next, h.mem) }

  /** A hart that step has advanced past the instruction of this kind. */
  predicate Ready(h: Hart, kind: Kind, f: Fields, compressed: bool) {
    HasOperation(kind) && h.dec == OperationFor(kind, f, compressed) && h.pc.next == FallThrough(h.pc.pc, h.dec)
  }

  function LengthOf(compressed: bool): word { if compressed then 2 else 4 }

  /** Executing the operation has the effect of the instruction. */
  predicate Means(cfg: Config, h: Hart, kind: Kind, f: Fields, compressed: bool) {
    Exec(cfg, h).Ok? && ExecuteKind(kind, f, LengthOf(compressed), Before(h)) == Next(After(Exec(cfg, h).hart))
  }

  lemma AluMeans(cfg: Config, h: Hart, kind: Kind, f: Fields, compressed: bool)
    requires Faithful(cfg.alu) && Ready(h, kind, f, compressed)
    requires kind.WithImmediate? || kind.WithRegister? || kind.AddUpperToPc?
    requires kind.WithImmediate? && A.IsShift(kind.alu) ==> A.Defined(kind.alu, f.imm)
    requires kind.WithRegister? && A.IsShift(kind.alu) ==> A.Defined(kind.alu, h.gprs.x[Index(f.rs2)])
    requires !(kind.WithImmediate? || kind.WithRegister?) || !(kind.alu.Jal? || kind.alu.Jalr?)
    ensures Means(cfg, h, kind, f, compressed)
  {
    hide A.DoAlu, Forward, Index, SetReg;
  }

  lemma JumpMeans(cfg: Config, h: Hart, kind: Kind, f: Fields, compressed: bool)
    requires Faithful(cfg.alu) && Ready(h, kind, f, compressed)
    requires kind.JumpAndLink? || kind.JumpRegister?
    ensures Means(cfg, h, kind, f, compressed)
  {
    hide A.DoAlu, Forward, Index, SetReg;
  }

  lemma MemoryMeans(cfg: Config, h: Hart, kind: Kind, f: Fields, compressed: bool)
    requires Ready(h, kind, f, compressed) && (kind.Loads? || kind.StoresTo?)
    ensures Means(cfg, h, kind, f, compressed)
  {
    hide Load, StoreValue, Forward, Index, SetReg, At;
  }

  lemma BranchMeans(cfg: Config, h: Hart, kind: Kind, f: Fields, compressed: bool)
    requires Ready(h, kind, f, compressed) && kind.Branches?
    ensures Means(cfg, h, kind, f, compressed)
  {
    hide ShouldBranch, Forward, Index, BranchAddress;
    BranchTargets(h.pc.pc, h.dec);
  }

  lemma Commutes(a: bv32, b: bv32)
    ensures Forward(a, b) == Forward(b, a)
  {
  }

  lemma BranchTargets(pc: word, op: Op)
    ensures BranchAddress(pc, op) == Forward(pc, op.imm)
  {
    hide Forward;
    Commutes(pc, op.imm);
  }

  lemma NoJumpKinds(op: BaseOp)
    ensures KindOf(op).WithImmediate? || KindOf(op).WithRegister? ==> !KindOf(op).alu.Jal? && !KindOf(op).alu.Jalr?
  {
  }

  lemma ModelledIsDefined(kind: Kind, f: Fields, len: word, s: Arch)
    requires ExecuteKind(kind, f, len, s) != NotModelled
    ensures kind.WithImmediate? ==> A.Defined(kind.alu, f.imm)
    ensures kind.WithRegister? ==> A.Defined(kind.alu, X(s, f.rs2))
  {
    hide A.DoAlu, Forward, A.Defined, X;
  }

  /** Executing the operation for an instruction has the effect of the instruction, shifts by 32 or more apart. */
  lemma ExecMeans(cfg: Config, h: Hart, op: BaseOp, f: Fields, compressed: bool)
    requires Faithful(cfg.alu) && Ready(h, KindOf(op), f, compressed)
    requires ExecuteKind(KindOf(op), f, LengthOf(compressed), Before(h)) != NotModelled
    ensures Means(cfg, h, KindOf(op), f, compressed)
  {
    hide KindOf, ExecuteKind, OperationFor, Means, Ready, LengthOf, A.Defined, A.IsShift;
    NoJumpKinds(op);
    ModelledIsDefined(KindOf(op), f, LengthOf(compressed), Before(h));
    ReadyHasOperation(h, KindOf(op), f, compressed);
    match KindOf(op) {
      case WithImmediate(_) => AluMeans(cfg, h, KindOf(op), f, compressed);
      case WithRegister(_) => AluMeans(cfg, h, KindOf(op), f, compressed);
      case AddUpperToPc => AluMeans(cfg, h, KindOf(op), f, compressed);
      case JumpAndLink => JumpMeans(cfg, h, KindOf(op), f, compressed);
      case JumpRegister => JumpMeans(cfg, h, KindOf(op), f, compressed);
      case Branches(_) => BranchMeans(cfg, h, KindOf(op), f, compressed);
      case _ => MemoryMeans(cfg, h, KindOf(op), f, compressed);
    }
  }

  lemma ReadyHasOperation(h: Hart, kind: Kind, f: Fields, compressed: bool)
    requires Ready(h, kind, f, compressed)
    ensures HasOperation(kind)
  {
    hide HasOperation;
  }

  /** A step of the hart whose decoder renders the fetched word as this instruction has the effect of the
      instruction. */
  lemma StepMeans(cfg: Config, h: Hart, op: BaseOp, f: Fields, compressed: bool)
    requires Faithful(cfg.alu) && ValidPc(cfg, h.pc.pc)
    requires HasOperation(KindOf(op)) && Fetch(cfg, h) == OperationFor(KindOf(op), f, compressed)
    requires Execute(op, f, LengthOf(compressed), Before(h)) != NotModelled
    ensures Step(cfg, h).Ok?
    ensures Execute(op, f, LengthOf(compressed), Before(h)) == Next(After(Step(cfg, h).hart))
  {
    hide KindOf, ExecuteKind, OperationFor, HasOperation, Exec, Fetch, ValidPc, FallThrough, LengthOf;
    var b := BeforeExec(cfg, h);
    assert b == h.(dec := Fetch(cfg, h), pc := h.pc.(next := FallThrough(h.pc.pc, Fetch(cfg, h))));
    assert Before(b) == Before(h);
    ExecMeans(cfg, b, op, f, compressed);
  }

  /** When the decoder expands a compressed word as chapter 16 does, a step of the hart does what chapter 16 says. */
  lemma CompressedStepMeans(cfg: Config, h: Hart, i: C.Instruction)
    requires Faithful(cfg.alu) && ValidPc(cfg, h.pc.pc) && h.gprs.x[0] == 0
    requires HasOperation(KindOf(D.Expansion(i).0))
        && Fetch(cfg, h) == OperationFor(KindOf(D.Expansion(i).0), D.Expansion(i).1, true)
    requires C.Meaning(i, Before(h)) != NotModelled
    ensures Step(cfg, h).Ok?
    ensures C.Meaning(i, Before(h)) == Next(After(Step(cfg, h).hart))
  {
    hide KindOf, D.Expansion, C.Meaning, Execute, OperationFor, HasOperation, Step, Fetch, ValidPc;
    D.ExpansionMeaning(i, Before(h));
    StepMeans(cfg, h, D.Expansion(i).0, D.Expansion(i).1, true);
  }

  /** The round from h to r has this effect: its registers and memory are those of the effect, and so is the pc,
      unless the timer interrupt was taken; then the pc saved for the handler is the word after the one of the
      effect. */
  predicate RoundHas(cfg: Config, h: Hart, effect: Effect) {
    && Round(cfg, h).Ok? && effect.Next?
    && var r := Round(cfg, h).hart;
    && r.gprs.x == effect.state.x && r.mem == effect.state.mem
    && if InterruptTaken(cfg, h) then A.Value(r.csrs.value[r.mode * 0x100 + 0x41]) == NextWord(effect.state.pc)
       else r.pc == ProgramCounter(effect.state.pc, effect.state.pc)
  }

  lemma StepToRound(cfg: Config, h: Hart)
    requires Step(cfg, h).Ok?
    ensures RoundHas(cfg, h, Next(After(Step(cfg, h).hart)))
  {
    hide Step, Round, InterruptTaken, TimerAsserted, A.Value;
    if InterruptTaken(cfg, h) {
      InterruptRound(cfg, h);
    } else {
      QuietRound(cfg, h);
    }
  }

  /** So the next round starts where the effect of the instruction leads, and with its registers and memory. */
  lemma RoundMeans(cfg: Config, h: Hart, op: BaseOp, f: Fields, compressed: bool)
    requires Faithful(cfg.alu) && ValidPc(cfg, h.pc.pc)
    requires HasOperation(KindOf(op)) && Fetch(cfg, h) == OperationFor(KindOf(op), f, compressed)
    requires Execute(op, f, LengthOf(compressed), Before(h)) != NotModelled
    ensures RoundHas(cfg, h, Execute(op, f, LengthOf(compressed), Before(h)))
  {
    hide KindOf, ExecuteKind, OperationFor, HasOperation, Step, Fetch, ValidPc, LengthOf, RoundHas;
    StepMeans(cfg, h, op, f, compressed);
    StepToRound(cfg, h);
  }

  lemma CompressedRoundMeans(cfg: Config, h: Hart, i: C.Instruction)
    requires Faithful(cfg.alu) && ValidPc(cfg, h.pc.pc) && h.gprs.x[0] == 0
    requires HasOperation(KindOf(D.Expansion(i).0))
        && Fetch(cfg, h) == OperationFor(KindOf(D.Expansion(i).0), D.Expansion(i).1, true)
    requires C.Meaning(i, Before(h)) != NotModelled
    ensures RoundHas(cfg, h, C.Meaning(i, Before(h)))
  {
    hide KindOf, D.Expansion, C.Meaning, OperationFor, HasOperation, Step, Fetch, ValidPc, RoundHas;
    CompressedStepMeans(cfg, h, i);
    StepToRound(cfg, h);
  }
}
