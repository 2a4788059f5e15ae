/** Encoding by the formats of section 2.3 of the RISC-V Unprivileged ISA (20191213), and the decoder as its inverse. */
module DisasRoundTrip {
  import opened Architecture
  import opened DisasTables
  import opened DisasDecode

  // ----- the fixed fields of the RV32IM and Zicsr opcodes, from chapter 24

  /** The major opcodes of the instructions encoded here. */
  datatype Place = LoadPlace | ImmediatePlace | AuipcPlace | StorePlace | RegisterPlace | LuiPlace | BranchPlace
      | JalrPlace | JalPlace
                 | SystemPlace | Elsewhere

  function PlaceOf(op: BaseOp): Place {
    match op
    case Lb | Lh | Lw | Lbu | Lhu => LoadPlace
    case Addi | Slti | Sltiu | Xori | Ori | Andi | Slli | Srli | Srai => ImmediatePlace
    case Auipc => AuipcPlace
    case Sb | Sh | Sw => StorePlace
    case Add | Sub | Sll | Slt | Sltu | Xor | Srl | Sra | Or | And => RegisterPlace
    case Mul | Mulh | Mulhsu | Mulhu | Div | Divu | Rem | Remu => RegisterPlace
    case Lui => LuiPlace
    case Beq | Bne | Blt | Bge | Bltu | Bgeu => BranchPlace
    case Jalr => JalrPlace
    case Jal => JalPlace
    case Csrrw | Csrrs | Csrrc | Csrrwi | Csrrsi | Csrrci => SystemPlace
    case _ => Elsewhere
  }

  /** The RV32IM and Zicsr instructions with operands. */
  predicate Encodable(op: BaseOp) { PlaceOf(op) != Elsewhere }

  function MajorOf(place: Place): bv5 {
    match place
    case LoadPlace => 0
    case ImmediatePlace => 4
    case AuipcPlace => 5
    case StorePlace => 8
    case RegisterPlace => 12
    case LuiPlace => 13
    case BranchPlace => 24
    case JalrPlace => 25
    case JalPlace => 27
    case SystemPlace => 28
    case Elsewhere => 31
  }

  function Funct3Of(op: BaseOp): bv3 {
    match op
    case Lh | Sh | Bne | Slli | Csrrw => 1
    case Lw | Sw | Slti | Csrrs => 2
    case Sltiu | Csrrc => 3
    case Lbu | Blt | Xori => 4
    case Lhu | Bge | Srli | Srai | Csrrwi => 5
    case Bltu | Ori | Csrrsi => 6
    case Bgeu | Andi | Csrrci => 7
    case _ => 0
  }

  /** funct7 above funct3, for the register-register instructions. */
  function Funct10Of(op: BaseOp): bv10 {
    match op
    case Sll => 1
    case Slt => 2
    case Sltu => 3
    case Xor => 4
    case Srl => 5
    case Or => 6
    case And => 7
    case Mul => 8
    case Mulh => 9
    case Mulhsu => 10
    case Mulhu => 11
    case Div => 12
    case Divu => 13
    case Rem => 14
    case Remu => 15
    case Sub => 256
    case Sra => 261
    case _ => 0
  }

  /** The bits above the shift amount. */
  function Funct5Of(op: BaseOp): bv5 { if op == Srai then 8 else 0 }

  // ----- packing

  function PackU(major: bv5, rd: reg, imm: imm32): inst64 {
    ((imm & 0xFFFF_F000) as bv64) | ((rd as bv64) << 7) | ((major as bv64) << 2) | 3
  }

  function PackJ(major: bv5, rd: reg, imm: imm32): inst64 {
    var i := imm as bv64;
    (((i >> 20) & 1) << 31) | (((i >> 1) & 0x3FF) << 21) | (((i >> 11) & 1) << 20) | (((i >> 12) & 0xFF) << 12)
    | ((rd as bv64) << 7) | ((major as bv64) << 2) | 3
  }

  function PackI(major: bv5, funct3: bv3, rd: reg, rs1: reg, imm: imm32): inst64 {
    (((imm & 0xFFF) as bv64) << 20) | ((rs1 as bv64) << 15) | ((funct3 as bv64) << 12) | ((rd as bv64) << 7)
        | ((major as bv64) << 2) | 3
  }

  /** A shift by an immediate. */
  function PackShift(major: bv5, funct3: bv3, funct5: bv5, rd: reg, rs1: reg, imm: imm32): inst64 {
    ((funct5 as bv64) << 27) | (((imm & 0x7F) as bv64) << 20) | ((rs1 as bv64) << 15) | ((funct3 as bv64) << 12)
        | ((rd as bv64) << 7) | ((major as bv64) << 2) | 3
  }

  function PackS(major: bv5, funct3: bv3, rs1: reg, rs2: reg, imm: imm32): inst64 {
    var i := imm as bv64;
    (((i >> 5) & 0x7F) << 25) | ((rs2 as bv64) << 20) | ((rs1 as bv64) << 15) | ((funct3 as bv64) << 12)
        | ((i & 0x1F) << 7) | ((major as bv64) << 2) | 3
  }

  function PackB(major: bv5, funct3: bv3, rs1: reg, rs2: reg, imm: imm32): inst64 {
    var i := imm as bv64;
    (((i >> 12) & 1) << 31) | (((i >> 5) & 0x3F) << 25) | ((rs2 as bv64) << 20) | ((rs1 as bv64) << 15)
        | ((funct3 as bv64) << 12)
    | (((i >> 1) & 0xF) << 8) | (((i >> 11) & 1) << 7) | ((major as bv64) << 2) | 3
  }

  function PackR(major: bv5, funct10: bv10, rd: reg, rs1: reg, rs2: reg): inst64 {
    (((funct10 as bv64) >> 3) << 25) | ((rs2 as bv64) << 20) | ((rs1 as bv64) << 15) | (((funct10 as bv64) & 7) << 12)
        | ((rd as bv64) << 7) | ((major as bv64) << 2) | 3
  }

  /** The instruction word for these operands. */
  function Encode(op: BaseOp, f: Fields): inst64 {
    var major := MajorOf(PlaceOf(op));
    match BaseCodec(op)
    case U => PackU(major, f.rd, f.imm)
    case UJ => PackJ(major, f.rd, f.imm)
    case ISh7 => PackShift(major, Funct3Of(op), Funct5Of(op), f.rd, f.rs1, f.imm)
    case S => PackS(major, Funct3Of(op), f.rs1, f.rs2, f.imm)
    case SB => PackB(major, Funct3Of(op), f.rs1, f.rs2, f.imm)
    case R => PackR(major, Funct10Of(op), f.rd, f.rs1, f.rs2)
    case _ => PackI(major, Funct3Of(op), f.rd, f.rs1, f.imm)
  }

  // ----- ranges

  /** imm is the sign extension of its low bits below the given sign bit. */
  predicate Fits12(imm: imm32) { imm < 0x800 || imm >= 0xFFFF_F800 }
  predicate FitsBranch(imm: imm32) { (imm < 0x1000 || imm >= 0xFFFF_F000) && imm & 1 == 0 }
  predicate FitsJump(imm: imm32) { (imm < 0x10_0000 || imm >= 0xFFF0_0000) && imm & 1 == 0 }
  predicate FitsCompressedBranch(imm: imm32) { (imm < 0x100 || imm >= 0xFFFF_FF00) && imm & 1 == 0 }
  predicate FitsCompressedJump(imm: imm32) { (imm < 0x800 || imm >= 0xFFFF_F800) && imm & 1 == 0 }
  predicate FitsUpper(imm: imm32) { imm & 0xFFF == 0 }
  predicate FitsShift(imm: imm32) { imm < 0x80 }
  predicate FitsCsr(imm: imm32) { imm < 0x1000 }
  predicate IsRegister(r: reg) { r < 32 }

  /** The fields an instruction of the codec can hold: the ones its format lacks are zero. */
  predicate InRange(codec: Codec, f: Fields) {
    match codec
    case U => IsRegister(f.rd) && f.rs1 == 0 && f.rs2 == 0 && FitsUpper(f.imm)
    case UJ => IsRegister(f.rd) && f.rs1 == 0 && f.rs2 == 0 && FitsJump(f.imm)
    case I => IsRegister(f.rd) && IsRegister(f.rs1) && f.rs2 == 0 && Fits12(f.imm)
    case ICsr => IsRegister(f.rd) && IsRegister(f.rs1) && f.rs2 == 0 && FitsCsr(f.imm)
    case ISh7 => IsRegister(f.rd) && IsRegister(f.rs1) && f.rs2 == 0 && FitsShift(f.imm)
    case S => f.rd == 0 && IsRegister(f.rs1) && IsRegister(f.rs2) && Fits12(f.imm)
    case SB => f.rd == 0 && IsRegister(f.rs1) && IsRegister(f.rs2) && FitsBranch(f.imm)
    case R => IsRegister(f.rd) && IsRegister(f.rs1) && IsRegister(f.rs2) && f.imm == 0
    case _ => false
  }

  // ----- opcode decoding reads back the fixed fields

  /** The word carries the fixed fields of op below the major opcode. */
  predicate Carries(inst: inst64, op: BaseOp) {
    match BaseCodec(op)
    case U | UJ => true
    case R => Funct10(inst) == Funct10Of(op)
    case ISh7 => Funct3(inst) == Funct3Of(op) && Funct5(inst) == Funct5Of(op)
    case _ => Funct3(inst) == Funct3Of(op)
  }

  /** If one of the opcodes encoded here is found in this place, it belongs there. */
  predicate From(op: Opcode, place: Place) {
    op.Base? ==> PlaceOf(op.base) == place || PlaceOf(op.base) == Elsewhere
  }

  lemma OtherGroups()
    ensures forall w :: PlaceOf(Wide(w)) == Elsewhere
    ensures forall y :: PlaceOf(System(y)) == Elsewhere
    ensures forall g :: PlaceOf(Float(g)) == Elsewhere
  {
  }

  lemma LoadOpPlace(inst: inst64)
    ensures From(LoadOp(inst), LoadPlace)
  {
    hide Major, Funct3, Funct5, Funct7, Funct10;
  }

  lemma FloatLoadOpPlace(inst: inst64)
    ensures From(FloatLoadOp(inst), Elsewhere)
  {
    hide Major, Funct3, Funct5, Funct7, Funct10, PlaceOf;
    OtherGroups();
  }

  lemma MiscMemOpPlace(inst: inst64)
    ensures From(MiscMemOp(inst), Elsewhere)
  {
    hide Major, Funct3, Funct5, Funct7, Funct10, PlaceOf;
    OtherGroups();
  }

  lemma ImmediateOpPlace(inst: inst64)
    ensures From(ImmediateOp(inst), ImmediatePlace)
  {
    hide Major, Funct3, Funct5, Funct7, Funct10;
  }

  lemma ImmediateWordOpPlace(inst: inst64)
    ensures From(ImmediateWordOp(inst), Elsewhere)
  {
    hide Major, Funct3, Funct5, Funct7, Funct10, PlaceOf;
    OtherGroups();
  }

  lemma StoreOpPlace(inst: inst64)
    ensures From(StoreOp(inst), StorePlace)
  {
    hide Major, Funct3, Funct5, Funct7, Funct10;
  }

  lemma FloatStoreOpPlace(inst: inst64)
    ensures From(FloatStoreOp(inst), Elsewhere)
  {
    hide Major, Funct3, Funct5, Funct7, Funct10, PlaceOf;
    OtherGroups();
  }

  lemma RegisterOpLowPlace(inst: inst64)
    requires Funct10(inst) < 8
    ensures From(RegisterOp(inst), RegisterPlace)
  {
    hide Major, Funct3, Funct5, Funct7, Funct10;
  }

  lemma RegisterOpHighPlace(inst: inst64)
    requires Funct10(inst) >= 8
    ensures From(RegisterOp(inst), RegisterPlace)
  {
    hide Major, Funct3, Funct5, Funct7, Funct10;
  }

  lemma RegisterOpPlace(inst: inst64)
    ensures From(RegisterOp(inst), RegisterPlace)
  {
    hide Funct10, PlaceOf, RegisterOp;
    if Funct10(inst) < 8 {
      RegisterOpLowPlace(inst);
    } else {
      RegisterOpHighPlace(inst);
    }
  }

  lemma RegisterWordOpPlace(inst: inst64)
    ensures From(RegisterWordOp(inst), Elsewhere)
  {
    hide Major, Funct3, Funct5, Funct7, Funct10, PlaceOf;
    OtherGroups();
  }

  lemma FloatOpPlace(inst: inst64)
    ensures From(FloatOp(inst), Elsewhere)
  {
    hide Major, Funct3, Funct5, Funct7, Funct10, PlaceOf;
    OtherGroups();
  }

  lemma ImmediateDoubleOpPlace(inst: inst64)
    ensures From(ImmediateDoubleOp(inst), Elsewhere)
  {
    hide Major, Funct3, Funct5, Funct7, Funct10, PlaceOf;
    OtherGroups();
  }

  lemma BranchOpPlace(inst: inst64)
    ensures From(BranchOp(inst), BranchPlace)
  {
    hide Major, Funct3, Funct5, Funct7, Funct10;
  }

  lemma PrivilegedOpPlace(inst: inst64)
    ensures From(PrivilegedOp(inst), Elsewhere)
  {
    hide PrivilegedKey, LowTen, Rs2Bits, Rs1Bits, PlaceOf;
    OtherGroups();
    SingleOps();
  }

  lemma SystemOpPlace(inst: inst64)
    ensures From(SystemOp(inst), SystemPlace)
  {
    hide Funct3, PrivilegedOp;
    PrivilegedOpPlace(inst);
  }

  lemma RegisterDoubleOpPlace(inst: inst64)
    ensures From(RegisterDoubleOp(inst), Elsewhere)
  {
    hide Major, Funct3, Funct5, Funct7, Funct10, PlaceOf;
    OtherGroups();
  }

  lemma SingleOps()
    ensures PlaceOf(Auipc) == AuipcPlace && PlaceOf(Lui) == LuiPlace && PlaceOf(Jalr) == JalrPlace
        && PlaceOf(Jal) == JalPlace
    ensures PlaceOf(Float(FloatOrAtomic)) == PlaceOf(Ebreak) == Elsewhere
  {
  }

  /** Where a major opcode leads. */
  function PlaceWith(major: bv5): Place {
    match major
    case 0 => LoadPlace
    case 4 => ImmediatePlace
    case 5 => AuipcPlace
    case 8 => StorePlace
    case 12 => RegisterPlace
    case 13 => LuiPlace
    case 24 => BranchPlace
    case 25 => JalrPlace
    case 27 => JalPlace
    case 28 => SystemPlace
    case _ => Elsewhere
  }

  lemma PlaceHasMajor(major: bv5)
    requires PlaceWith(major) != Elsewhere
    ensures MajorOf(PlaceWith(major)) == major
  {
  }

  lemma SingleFrom(place: Place)
    ensures From(Base(Auipc), AuipcPlace) && From(Base(Lui), LuiPlace) && From(Base(Jalr), JalrPlace)
        && From(Base(Jal), JalPlace)
    ensures From(Illegal, place) && From(Base(Float(FloatOrAtomic)), place)
  {
    hide PlaceOf;
    SingleOps();
  }

  lemma QuadrantPlace(inst: inst64)
    ensures From(Quadrant3(inst), PlaceWith(Major(inst)))
  {
    hide From, PlaceOf, Major, Funct3, LoadOp, FloatLoadOp, MiscMemOp, ImmediateOp, ImmediateWordOp, StoreOp,
      FloatStoreOp, RegisterOp, RegisterWordOp, FloatOp, ImmediateDoubleOp, BranchOp, SystemOp, RegisterDoubleOp;
    SingleFrom(PlaceWith(Major(inst)));
    SingleFrom(JalrPlace);
    LoadOpPlace(inst);
    FloatLoadOpPlace(inst);
    MiscMemOpPlace(inst);
    ImmediateOpPlace(inst);
    ImmediateWordOpPlace(inst);
    StoreOpPlace(inst);
    FloatStoreOpPlace(inst);
    RegisterOpPlace(inst);
    RegisterWordOpPlace(inst);
    FloatOpPlace(inst);
    ImmediateDoubleOpPlace(inst);
    BranchOpPlace(inst);
    SystemOpPlace(inst);
    RegisterDoubleOpPlace(inst);
  }

  /** An opcode is decoded only from words with its major opcode. */
  lemma MajorDecodes(inst: inst64, op: BaseOp)
    requires Quadrant3(inst) == Base(op) && Encodable(op)
    ensures Major(inst) == MajorOf(PlaceOf(op))
  {
    hide Quadrant3, PlaceWith, PlaceOf, Major, MajorOf;
    QuadrantPlace(inst);
    PlaceHasMajor(Major(inst));
  }

  lemma LoadOpDecodes(inst: inst64, op: BaseOp)
    requires PlaceOf(op) == LoadPlace
    ensures LoadOp(inst) == Base(op) <==> Carries(inst, op)
  {
    hide Major, Funct3, Funct5, Funct7, Funct10;
  }

  lemma ImmediateOpDecodes(inst: inst64, op: BaseOp)
    requires PlaceOf(op) == ImmediatePlace
    ensures ImmediateOp(inst) == Base(op) <==> Carries(inst, op)
  {
    hide Major, Funct3, Funct5, Funct7, Funct10;
  }

  lemma StoreOpDecodes(inst: inst64, op: BaseOp)
    requires PlaceOf(op) == StorePlace
    ensures StoreOp(inst) == Base(op) <==> Carries(inst, op)
  {
    hide Major, Funct3, Funct5, Funct7, Funct10;
  }

  lemma SumOpDecodes(inst: inst64, op: BaseOp)
    requires op.Add? || op.Sub? || op.Slt? || op.Sltu?
    ensures RegisterOp(inst) == Base(op) <==> Funct10(inst) == Funct10Of(op)
  {
    hide Funct10;
  }

  lemma LogicOpDecodes(inst: inst64, op: BaseOp)
    requires op.Xor? || op.Or? || op.And?
    ensures RegisterOp(inst) == Base(op) <==> Funct10(inst) == Funct10Of(op)
  {
    hide Funct10;
  }

  lemma ShiftOpDecodes(inst: inst64, op: BaseOp)
    requires op.Sll? || op.Srl? || op.Sra?
    ensures RegisterOp(inst) == Base(op) <==> Funct10(inst) == Funct10Of(op)
  {
    hide Funct10;
  }

  lemma MultiplyOpDecodes(inst: inst64, op: BaseOp)
    requires op.Mul? || op.Mulh? || op.Mulhsu? || op.Mulhu?
    ensures RegisterOp(inst) == Base(op) <==> Funct10(inst) == Funct10Of(op)
  {
    hide Funct10;
  }

  lemma DivideOpDecodes(inst: inst64, op: BaseOp)
    requires op.Div? || op.Divu?
    ensures RegisterOp(inst) == Base(op) <==> Funct10(inst) == Funct10Of(op)
  {
    hide Funct10;
  }

  lemma RemainderOpDecodes(inst: inst64, op: BaseOp)
    requires op.Rem? || op.Remu?
    ensures RegisterOp(inst) == Base(op) <==> Funct10(inst) == Funct10Of(op)
  {
    hide Funct10;
  }

  lemma RegisterGroup(op: BaseOp)
    requires PlaceOf(op) == RegisterPlace
    ensures BaseCodec(op) == R
    ensures || op.Add? || op.Sub? || op.Slt? || op.Sltu? || op.Xor? || op.Or? || op.And? || op.Sll? || op.Srl?
        || op.Sra?
            || op.Mul? || op.Mulh? || op.Mulhsu? || op.Mulhu? || op.Div? || op.Divu? || op.Rem? || op.Remu?
  {
  }

  lemma RegisterOpDecodes(inst: inst64, op: BaseOp)
    requires PlaceOf(op) == RegisterPlace
    ensures RegisterOp(inst) == Base(op) <==> Carries(inst, op)
  {
    hide Funct10, Funct10Of, RegisterOp, PlaceOf, BaseCodec;
    RegisterGroup(op);
    if op.Add? || op.Sub? || op.Slt? || op.Sltu? {
      SumOpDecodes(inst, op);
    } else if op.Xor? || op.Or? || op.And? {
      LogicOpDecodes(inst, op);
    } else if op.Sll? || op.Srl? || op.Sra? {
      ShiftOpDecodes(inst, op);
    } else if op.Mul? || op.Mulh? || op.Mulhsu? || op.Mulhu? {
      MultiplyOpDecodes(inst, op);
    } else if op.Div? || op.Divu? {
      DivideOpDecodes(inst, op);
    } else {
      RemainderOpDecodes(inst, op);
    }
  }

  lemma BranchOpDecodes(inst: inst64, op: BaseOp)
    requires PlaceOf(op) == BranchPlace
    ensures BranchOp(inst) == Base(op) <==> Carries(inst, op)
  {
    hide Major, Funct3, Funct5, Funct7, Funct10;
  }

  lemma SystemOpDecodes(inst: inst64, op: BaseOp)
    requires PlaceOf(op) == SystemPlace
    ensures SystemOp(inst) == Base(op) <==> Carries(inst, op)
  {
    hide Major, Funct3, Funct5, Funct7, Funct10, PrivilegedKey, LowTen, Rs2Bits, Rs1Bits;
  }

  lemma UpperDecodes(inst: inst64, op: BaseOp)
    requires PlaceOf(op) == LuiPlace || PlaceOf(op) == AuipcPlace || PlaceOf(op) == JalPlace
    ensures Carries(inst, op)
    ensures op == (match PlaceOf(op) case LuiPlace => Lui case AuipcPlace => Auipc case _ => Jal)
  {
    hide Funct3, Funct5, Funct10;
  }

  lemma JalrDecodes(inst: inst64, op: BaseOp)
    requires PlaceOf(op) == JalrPlace
    ensures op == Jalr
    ensures Carries(inst, op) <==> Funct3(inst) == 0
  {
    hide Funct3, Funct5, Funct10;
  }

  /** Which switch a major opcode leads to. */
  lemma QuadrantAt(inst: inst64, place: Place)
    requires Major(inst) == MajorOf(place)
    ensures match place
            case LoadPlace => Quadrant3(inst) == LoadOp(inst)
            case ImmediatePlace => Quadrant3(inst) == ImmediateOp(inst)
            case AuipcPlace => Quadrant3(inst) == Base(Auipc)
            case StorePlace => Quadrant3(inst) == StoreOp(inst)
            case RegisterPlace => Quadrant3(inst) == RegisterOp(inst)
            case LuiPlace => Quadrant3(inst) == Base(Lui)
            case BranchPlace => Quadrant3(inst) == BranchOp(inst)
            case JalrPlace => Quadrant3(inst) == (if Funct3(inst) == 0 then Base(Jalr) else Illegal)
            case JalPlace => Quadrant3(inst) == Base(Jal)
            case SystemPlace => Quadrant3(inst) == SystemOp(inst)
            case Elsewhere => true
  {
    hide Major, Funct3, LoadOp, FloatLoadOp, MiscMemOp, ImmediateOp, ImmediateWordOp, StoreOp, FloatStoreOp,
      RegisterOp, RegisterWordOp, FloatOp, ImmediateDoubleOp, BranchOp, SystemOp, RegisterDoubleOp;
  }

  lemma FullLengthOpcode(inst: inst64, isa: Isa)
    requires inst & 3 == 3
    ensures OpcodeOf(inst, isa) == Quadrant3(inst)
  {
    hide Quadrant0, Quadrant1, Quadrant2, Quadrant3;
  }

  lemma EncodablePlace(op: BaseOp)
    requires Encodable(op)
    ensures PlaceOf(op) != Elsewhere
  {
    hide PlaceOf;
  }

  /** Opcode decoding recognises exactly the words with the fixed fields of chapter 24, on all three ISAs. */
  lemma OpcodeIffFixedFields(inst: inst64, op: BaseOp, isa: Isa)
    requires Encodable(op) && inst & 3 == 3
    ensures OpcodeOf(inst, isa) == Base(op) <==> Major(inst) == MajorOf(PlaceOf(op)) && Carries(inst, op)
  {
    hide *;
    FullLengthOpcode(inst, isa);
    if Quadrant3(inst) == Base(op) {
      MajorDecodes(inst, op);
    }
    if Major(inst) == MajorOf(PlaceOf(op)) {
      QuadrantAt(inst, PlaceOf(op));
      EncodablePlace(op);
      match PlaceOf(op) {
        case LoadPlace => LoadOpDecodes(inst, op);
        case ImmediatePlace => ImmediateOpDecodes(inst, op);
        case StorePlace => StoreOpDecodes(inst, op);
        case RegisterPlace => RegisterOpDecodes(inst, op);
        case BranchPlace => BranchOpDecodes(inst, op);
        case SystemPlace => SystemOpDecodes(inst, op);
        case JalrPlace => JalrDecodes(inst, op);
        case _ => UpperDecodes(inst, op);
      }
    }
  }

  // ----- packing and unpacking, format by format

  /** The sign extension of a 12-bit field. */
  function SignExtend12(field: imm32): imm32 { if field & 0x800 != 0 then field | 0xFFFF_F000 else field }

  lemma PositiveImm12(inst: inst64)
    requires inst & 0x8000_0000 == 0
    ensures OperandImm12(inst) == SignExtend12(((inst >> 20) & 0xFFF) as imm32)
  {
  }

  lemma NegativeImm12(inst: inst64)
    requires inst & 0x8000_0000 != 0
    ensures OperandImm12(inst) == SignExtend12(((inst >> 20) & 0xFFF) as imm32)
  {
  }

  lemma Imm12IsSignExtended(inst: inst64)
    ensures OperandImm12(inst) == SignExtend12(((inst >> 20) & 0xFFF) as imm32)
  {
    hide OperandImm12, SignExtend12;
    if inst & 0x8000_0000 == 0 {
      PositiveImm12(inst);
    } else {
      NegativeImm12(inst);
    }
  }

  lemma PositiveImm20(inst: inst64)
    requires inst & 0x8000_0000 == 0
    ensures OperandImm20(inst) == (inst & 0xFFFF_F000) as imm32
  {
  }

  lemma NegativeImm20(inst: inst64)
    requires inst & 0x8000_0000 != 0
    ensures OperandImm20(inst) == (inst & 0xFFFF_F000) as imm32
  {
  }

  lemma Imm20IsUpper(inst: inst64)
    ensures OperandImm20(inst) == (inst & 0xFFFF_F000) as imm32
  {
    hide OperandImm20;
    if inst & 0x8000_0000 == 0 {
      PositiveImm20(inst);
    } else {
      NegativeImm20(inst);
    }
  }

  lemma UnpackU(major: bv5, rd: reg, imm: imm32)
    requires IsRegister(rd) && FitsUpper(imm)
    ensures var w := PackU(major, rd, imm);
      w & 3 == 3 && Major(w) == major && OperandRd(w) == rd && OperandImm20(w) == imm
  {
    hide OperandImm20;
    Imm20IsUpper(PackU(major, rd, imm));
  }

  lemma UnpackJ(major: bv5, rd: reg, imm: imm32)
    requires IsRegister(rd) && FitsJump(imm)
    ensures var w := PackJ(major, rd, imm);
      w & 3 == 3 && Major(w) == major && OperandRd(w) == rd && OperandJimm20(w) == imm
  {
  }

  lemma UnpackI(major: bv5, funct3: bv3, rd: reg, rs1: reg, imm: imm32)
    requires IsRegister(rd) && IsRegister(rs1)
    ensures var w := PackI(major, funct3, rd, rs1, imm);
      w & 3 == 3 && Major(w) == major && Funct3(w) == funct3 && OperandRd(w) == rd && OperandRs1(w) == rs1
  {
  }

  lemma UnpackImm12(major: bv5, funct3: bv3, rd: reg, rs1: reg, imm: imm32)
    requires IsRegister(rd) && IsRegister(rs1) && Fits12(imm)
    ensures OperandImm12(PackI(major, funct3, rd, rs1, imm)) == imm
  {
    hide OperandImm12;
    Imm12IsSignExtended(PackI(major, funct3, rd, rs1, imm));
  }

  lemma UnpackCsr(major: bv5, funct3: bv3, rd: reg, rs1: reg, imm: imm32)
    requires IsRegister(rd) && IsRegister(rs1) && FitsCsr(imm)
    ensures OperandCsr12(PackI(major, funct3, rd, rs1, imm)) == imm
  {
  }

  lemma UnpackShift(major: bv5, funct3: bv3, funct5: bv5, rd: reg, rs1: reg, imm: imm32)
    requires IsRegister(rd) && IsRegister(rs1) && FitsShift(imm)
    ensures var w := PackShift(major, funct3, funct5, rd, rs1, imm);
      && w & 3 == 3 && Major(w) == major && Funct3(w) == funct3 && Funct5(w) == funct5
      && OperandRd(w) == rd && OperandRs1(w) == rs1 && OperandShamt7(w) == imm
  {
  }

  lemma UnpackS(major: bv5, funct3: bv3, rs1: reg, rs2: reg, imm: imm32)
    requires IsRegister(rs1) && IsRegister(rs2) && Fits12(imm)
    ensures var w := PackS(major, funct3, rs1, rs2, imm);
      && w & 3 == 3 && Major(w) == major && Funct3(w) == funct3
      && OperandRs1(w) == rs1 && OperandRs2(w) == rs2 && OperandSimm12(w) == imm
  {
  }

  lemma UnpackB(major: bv5, funct3: bv3, rs1: reg, rs2: reg, imm: imm32)
    requires IsRegister(rs1) && IsRegister(rs2) && FitsBranch(imm)
    ensures var w := PackB(major, funct3, rs1, rs2, imm);
      && w & 3 == 3 && Major(w) == major && Funct3(w) == funct3
      && OperandRs1(w) == rs1 && OperandRs2(w) == rs2 && OperandSbimm12(w) == imm
  {
  }

  lemma UnpackR(major: bv5, funct10: bv10, rd: reg, rs1: reg, rs2: reg)
    requires IsRegister(rd) && IsRegister(rs1) && IsRegister(rs2)
    ensures var w := PackR(major, funct10, rd, rs1, rs2);
      && w & 3 == 3 && Major(w) == major && Funct10(w) == funct10
      && OperandRd(w) == rd && OperandRs1(w) == rs1 && OperandRs2(w) == rs2
  {
  }

  /** The opcode and the operand fields the decoder finds in the word. */
  predicate Decodes(inst: inst64, op: BaseOp, f: Fields, isa: Isa, prior: Fields) {
    OpcodeOf(inst, isa) == Base(op) && OperandsOf(inst, BaseCodec(op), prior) == f
  }

  lemma EncodedUpperDecodes(op: BaseOp, f: Fields, isa: Isa, prior: Fields)
    requires Encodable(op) && InRange(U, f) && BaseCodec(op) == U
    ensures Decodes(Encode(op, f), op, f, isa, prior)
  {
    hide OpcodeOf, PlaceOf, BaseCodec, CompactOperandsOf;
    UnpackU(MajorOf(PlaceOf(op)), f.rd, f.imm);
    OpcodeIffFixedFields(Encode(op, f), op, isa);
  }

  lemma EncodedJumpDecodes(op: BaseOp, f: Fields, isa: Isa, prior: Fields)
    requires Encodable(op) && InRange(UJ, f) && BaseCodec(op) == UJ
    ensures Decodes(Encode(op, f), op, f, isa, prior)
  {
    hide OpcodeOf, PlaceOf, BaseCodec, CompactOperandsOf;
    UnpackJ(MajorOf(PlaceOf(op)), f.rd, f.imm);
    OpcodeIffFixedFields(Encode(op, f), op, isa);
  }

  lemma EncodedImmediateDecodes(op: BaseOp, f: Fields, isa: Isa, prior: Fields)
    requires Encodable(op) && InRange(I, f) && BaseCodec(op) == I
    ensures Decodes(Encode(op, f), op, f, isa, prior)
  {
    hide OpcodeOf, PlaceOf, BaseCodec, CompactOperandsOf;
    UnpackI(MajorOf(PlaceOf(op)), Funct3Of(op), f.rd, f.rs1, f.imm);
    UnpackImm12(MajorOf(PlaceOf(op)), Funct3Of(op), f.rd, f.rs1, f.imm);
    OpcodeIffFixedFields(Encode(op, f), op, isa);
  }

  lemma EncodedCsrDecodes(op: BaseOp, f: Fields, isa: Isa, prior: Fields)
    requires Encodable(op) && InRange(ICsr, f) && BaseCodec(op) == ICsr
    ensures Decodes(Encode(op, f), op, f, isa, prior)
  {
    hide OpcodeOf, PlaceOf, BaseCodec, CompactOperandsOf;
    UnpackI(MajorOf(PlaceOf(op)), Funct3Of(op), f.rd, f.rs1, f.imm);
    UnpackCsr(MajorOf(PlaceOf(op)), Funct3Of(op), f.rd, f.rs1, f.imm);
    OpcodeIffFixedFields(Encode(op, f), op, isa);
  }

  lemma EncodedShiftDecodes(op: BaseOp, f: Fields, isa: Isa, prior: Fields)
    requires Encodable(op) && InRange(ISh7, f) && BaseCodec(op) == ISh7
    ensures Decodes(Encode(op, f), op, f, isa, prior)
  {
    hide OpcodeOf, PlaceOf, BaseCodec, CompactOperandsOf;
    UnpackShift(MajorOf(PlaceOf(op)), Funct3Of(op), Funct5Of(op), f.rd, f.rs1, f.imm);
    OpcodeIffFixedFields(Encode(op, f), op, isa);
  }

  lemma EncodedStoreDecodes(op: BaseOp, f: Fields, isa: Isa, prior: Fields)
    requires Encodable(op) && InRange(S, f) && BaseCodec(op) == S
    ensures Decodes(Encode(op, f), op, f, isa, prior)
  {
    hide OpcodeOf, PlaceOf, BaseCodec, CompactOperandsOf;
    UnpackS(MajorOf(PlaceOf(op)), Funct3Of(op), f.rs1, f.rs2, f.imm);
    OpcodeIffFixedFields(Encode(op, f), op, isa);
  }

  lemma EncodedBranchDecodes(op: BaseOp, f: Fields, isa: Isa, prior: Fields)
    requires Encodable(op) && InRange(SB, f) && BaseCodec(op) == SB
    ensures Decodes(Encode(op, f), op, f, isa, prior)
  {
    hide OpcodeOf, PlaceOf, BaseCodec, CompactOperandsOf;
    UnpackB(MajorOf(PlaceOf(op)), Funct3Of(op), f.rs1, f.rs2, f.imm);
    OpcodeIffFixedFields(Encode(op, f), op, isa);
  }

  lemma EncodedRegisterDecodes(op: BaseOp, f: Fields, isa: Isa, prior: Fields)
    requires Encodable(op) && InRange(R, f) && BaseCodec(op) == R
    ensures Decodes(Encode(op, f), op, f, isa, prior)
  {
    hide OpcodeOf, PlaceOf, BaseCodec, CompactOperandsOf;
    UnpackR(MajorOf(PlaceOf(op)), Funct10Of(op), f.rd, f.rs1, f.rs2);
    OpcodeIffFixedFields(Encode(op, f), op, isa);
  }

  /** Decoding what was encoded returns the opcode, the registers and the sign-extended immediate. */
  lemma DecodeEncoded(op: BaseOp, f: Fields, isa: Isa, prior: Fields)
    requires Encodable(op) && InRange(BaseCodec(op), f)
    ensures Decodes(Encode(op, f), op, f, isa, prior)
  {
    hide *;
    EncodableCodecs(op);
    match BaseCodec(op) {
      case U => EncodedUpperDecodes(op, f, isa, prior);
      case UJ => EncodedJumpDecodes(op, f, isa, prior);
      case I => EncodedImmediateDecodes(op, f, isa, prior);
      case ICsr => EncodedCsrDecodes(op, f, isa, prior);
      case ISh7 => EncodedShiftDecodes(op, f, isa, prior);
      case S => EncodedStoreDecodes(op, f, isa, prior);
      case SB => EncodedBranchDecodes(op, f, isa, prior);
      case _ => EncodedRegisterDecodes(op, f, isa, prior);
    }
  }

  // ----- the other direction

  /** The 32-bit word at the bottom of the instruction register. */
  function LowWord(inst: inst64): inst64 { inst & 0xFFFF_FFFF }

  lemma RepackU(inst: inst64)
    requires inst & 3 == 3
    ensures PackU(Major(inst), OperandRd(inst), OperandImm20(inst)) == LowWord(inst)
  {
    hide OperandImm20;
    Imm20IsUpper(inst);
  }

  lemma RepackJ(inst: inst64)
    requires inst & 3 == 3
    ensures PackJ(Major(inst), OperandRd(inst), OperandJimm20(inst)) == LowWord(inst)
  {
  }

  lemma RepackI(inst: inst64)
    requires inst & 3 == 3
    ensures PackI(Major(inst), Funct3(inst), OperandRd(inst), OperandRs1(inst), OperandImm12(inst)) == LowWord(inst)
  {
    hide OperandImm12;
    Imm12IsSignExtended(inst);
  }

  lemma RepackCsr(inst: inst64)
    requires inst & 3 == 3
    ensures PackI(Major(inst), Funct3(inst), OperandRd(inst), OperandRs1(inst), OperandCsr12(inst)) == LowWord(inst)
  {
  }

  lemma RepackShift(inst: inst64)
    requires inst & 3 == 3
    ensures PackShift(Major(inst), Funct3(inst), Funct5(inst), OperandRd(inst), OperandRs1(inst), OperandShamt7(inst))
        == LowWord(inst)
  {
  }

  lemma RepackS(inst: inst64)
    requires inst & 3 == 3
    ensures PackS(Major(inst), Funct3(inst), OperandRs1(inst), OperandRs2(inst), OperandSimm12(inst)) == LowWord(inst)
  {
  }

  lemma RepackB(inst: inst64)
    requires inst & 3 == 3
    ensures PackB(Major(inst), Funct3(inst), OperandRs1(inst), OperandRs2(inst), OperandSbimm12(inst)) == LowWord(inst)
  {
  }

  lemma RepackR(inst: inst64)
    requires inst & 3 == 3
    ensures PackR(Major(inst), Funct10(inst), OperandRd(inst), OperandRs1(inst), OperandRs2(inst)) == LowWord(inst)
  {
  }

  lemma OperandRanges(inst: inst64)
    ensures IsRegister(OperandRd(inst)) && IsRegister(OperandRs1(inst)) && IsRegister(OperandRs2(inst))
    ensures FitsUpper(OperandImm20(inst)) && FitsJump(OperandJimm20(inst)) && FitsBranch(OperandSbimm12(inst))
    ensures Fits12(OperandImm12(inst)) && Fits12(OperandSimm12(inst))
    ensures FitsCsr(OperandCsr12(inst)) && FitsShift(OperandShamt7(inst))
  {
    hide OperandImm12, OperandImm20;
    Imm12IsSignExtended(inst);
    Imm20IsUpper(inst);
  }

  lemma EncodableCodecs(op: BaseOp)
    requires Encodable(op)
    ensures BaseCodec(op) in {U, UJ, ISh7, S, SB, R, ICsr, I}
  {
  }

  /** The compressed extractors: registers below 32, the short ones x8 to x15, and even jump and branch offsets in
      range. */
  lemma CompressedOperandRanges(inst: inst64)
    ensures 8 <= Short(OperandCrdq(inst)) < 16 && 8 <= Short(OperandCrs1q(inst)) < 16
    ensures IsRegister(Short(OperandCrdq(inst))) && IsRegister(Short(OperandCrs1q(inst)))
    ensures IsRegister(OperandCrd(inst)) && IsRegister(OperandCrs2(inst))
    ensures FitsCompressedJump(OperandCimmj(inst)) && FitsCompressedBranch(OperandCimmb(inst))
  {
  }

  lemma NamedRegisters()
    ensures IsRegister(ZERO) && IsRegister(RA) && IsRegister(SP)
  {
  }

  predicate RegistersFit(f: Fields) { IsRegister(f.rd) && IsRegister(f.rs1) && IsRegister(f.rs2) }

  lemma CompactInRange(inst: inst64, codec: CompactCodec)
    ensures RegistersFit(CompactOperandsOf(inst, codec))
  {
    hide Short, OperandCrdq, OperandCrs1q, OperandCrd, OperandCrs2, IsRegister;
    NamedRegisters();
    CompressedOperandRanges(inst);
  }

  /** The registers the codecs of this model set are below 32; the floating-point and atomic ones are not told apart. */
  lemma RegistersInRange(inst: inst64, codec: Codec, prior: Fields)
    requires RegistersFit(prior)
    ensures RegistersFit(OperandsOf(inst, codec, prior))
  {
    hide OperandRd, OperandRs1, OperandRs2, CompactOperandsOf, IsRegister;
    NamedRegisters();
    OperandRanges(inst);
    if codec.Compact? {
      CompactInRange(inst, codec.compact);
    }
  }

  /** A full-length opcode comes from a full-length word. */
  lemma BaseOpcodesAreFullLength(inst: inst64, op: BaseOp, f: Fields, isa: Isa, prior: Fields)
    requires Decodes(inst, op, f, isa, prior)
    ensures inst & 3 == 3
  {
    hide Quadrant3;
  }

  lemma DecodedUpperEncodes(inst: inst64, op: BaseOp, f: Fields, isa: Isa, prior: Fields)
    requires Encodable(op) && Decodes(inst, op, f, isa, prior) && inst & 3 == 3 && BaseCodec(op) == U
    ensures InRange(U, f) && Encode(op, f) == LowWord(inst)
  {
    hide OpcodeOf, PlaceOf, BaseCodec, CompactOperandsOf;
    OperandRanges(inst);
    RepackU(inst);
    OpcodeIffFixedFields(inst, op, isa);
  }

  lemma DecodedJumpEncodes(inst: inst64, op: BaseOp, f: Fields, isa: Isa, prior: Fields)
    requires Encodable(op) && Decodes(inst, op, f, isa, prior) && inst & 3 == 3 && BaseCodec(op) == UJ
    ensures InRange(UJ, f) && Encode(op, f) == LowWord(inst)
  {
    hide OpcodeOf, PlaceOf, BaseCodec, CompactOperandsOf;
    OperandRanges(inst);
    RepackJ(inst);
    OpcodeIffFixedFields(inst, op, isa);
  }

  lemma DecodedImmediateEncodes(inst: inst64, op: BaseOp, f: Fields, isa: Isa, prior: Fields)
    requires Encodable(op) && Decodes(inst, op, f, isa, prior) && inst & 3 == 3 && BaseCodec(op) == I
    ensures InRange(I, f) && Encode(op, f) == LowWord(inst)
  {
    hide OpcodeOf, PlaceOf, BaseCodec, CompactOperandsOf;
    OperandRanges(inst);
    RepackI(inst);
    OpcodeIffFixedFields(inst, op, isa);
  }

  lemma DecodedCsrEncodes(inst: inst64, op: BaseOp, f: Fields, isa: Isa, prior: Fields)
    requires Encodable(op) && Decodes(inst, op, f, isa, prior) && inst & 3 == 3 && BaseCodec(op) == ICsr
    ensures InRange(ICsr, f) && Encode(op, f) == LowWord(inst)
  {
    hide OpcodeOf, PlaceOf, BaseCodec, CompactOperandsOf;
    OperandRanges(inst);
    RepackCsr(inst);
    OpcodeIffFixedFields(inst, op, isa);
  }

  lemma DecodedShiftEncodes(inst: inst64, op: BaseOp, f: Fields, isa: Isa, prior: Fields)
    requires Encodable(op) && Decodes(inst, op, f, isa, prior) && inst & 3 == 3 && BaseCodec(op) == ISh7
    ensures InRange(ISh7, f) && Encode(op, f) == LowWord(inst)
  {
    hide OpcodeOf, PlaceOf, BaseCodec, CompactOperandsOf;
    OperandRanges(inst);
    RepackShift(inst);
    OpcodeIffFixedFields(inst, op, isa);
  }

  lemma DecodedStoreEncodes(inst: inst64, op: BaseOp, f: Fields, isa: Isa, prior: Fields)
    requires Encodable(op) && Decodes(inst, op, f, isa, prior) && inst & 3 == 3 && BaseCodec(op) == S
    ensures InRange(S, f) && Encode(op, f) == LowWord(inst)
  {
    hide OpcodeOf, PlaceOf, BaseCodec, CompactOperandsOf;
    OperandRanges(inst);
    RepackS(inst);
    OpcodeIffFixedFields(inst, op, isa);
  }

  lemma DecodedBranchEncodes(inst: inst64, op: BaseOp, f: Fields, isa: Isa, prior: Fields)
    requires Encodable(op) && Decodes(inst, op, f, isa, prior) && inst & 3 == 3 && BaseCodec(op) == SB
    ensures InRange(SB, f) && Encode(op, f) == LowWord(inst)
  {
    hide OpcodeOf, PlaceOf, BaseCodec, CompactOperandsOf;
    OperandRanges(inst);
    RepackB(inst);
    OpcodeIffFixedFields(inst, op, isa);
  }

  lemma DecodedRegisterEncodes(inst: inst64, op: BaseOp, f: Fields, isa: Isa, prior: Fields)
    requires Encodable(op) && Decodes(inst, op, f, isa, prior) && inst & 3 == 3 && BaseCodec(op) == R
    ensures InRange(R, f) && Encode(op, f) == LowWord(inst)
  {
    hide OpcodeOf, PlaceOf, BaseCodec, CompactOperandsOf;
    OperandRanges(inst);
    RepackR(inst);
    OpcodeIffFixedFields(inst, op, isa);
  }

  /** Encoding what was decoded returns the word, and the operands are in range: branch and jump offsets in
      particular are even and no wider than their format. */
  lemma EncodeDecoded(inst: inst64, op: BaseOp, f: Fields, isa: Isa, prior: Fields)
    requires Encodable(op) && Decodes(inst, op, f, isa, prior)
    ensures InRange(BaseCodec(op), f) && Encode(op, f) == LowWord(inst)
  {
    hide *;
    EncodableCodecs(op);
    BaseOpcodesAreFullLength(inst, op, f, isa, prior);
    match BaseCodec(op) {
      case U => DecodedUpperEncodes(inst, op, f, isa, prior);
      case UJ => DecodedJumpEncodes(inst, op, f, isa, prior);
      case I => DecodedImmediateEncodes(inst, op, f, isa, prior);
      case ICsr => DecodedCsrEncodes(inst, op, f, isa, prior);
      case ISh7 => DecodedShiftEncodes(inst, op, f, isa, prior);
      case S => DecodedStoreEncodes(inst, op, f, isa, prior);
      case SB => DecodedBranchEncodes(inst, op, f, isa, prior);
      case _ => DecodedRegisterEncodes(inst, op, f, isa, prior);
    }
  }
}
