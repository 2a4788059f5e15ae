/** The instructions without a meaning here: which words are the privileged ones, and which CSR, RV64 and
    floating-point instructions are printed as pseudo-instructions. */
module DisasSystem {
  import opened DisasTables
  import opened DisasDecode
  import opened DisasPseudo
  import opened DisasRoundTrip

  // ----- the privileged words

  predicate Privileged(op: BaseOp) {
    op.Ebreak? || (op.System? && op.system != Fence && op.system != FenceI)
  }

  /** The bits that tell the instruction, and what they are. */
  function Mask(op: BaseOp): inst64 {
    if op == System(SfenceVm) then 0xFFF0_7FFF else if op == System(SfenceVma) then 0xFE00_7FFF else 0xFFFF_FFFF
  }

  function Pattern(op: BaseOp): inst64
    requires Privileged(op)
  {
    if op.Ebreak? then 0x0010_0073
    else
      match op.system
      case Ecall => 0x0000_0073
      case Uret => 0x0020_0073
      case Sret => 0x1020_0073
      case Hret => 0x2020_0073
      case Mret => 0x3020_0073
      case Dret => 0x7B20_0073
      case Wfi => 0x1050_0073
      case SfenceVm => 0x1040_0073
      case _ => 0x1200_0073
  }

  predicate Ordinary(op: Opcode) { op.Base? ==> !Privileged(op.base) }

  lemma LoadsAreOrdinary(inst: inst64)
    ensures Ordinary(LoadOp(inst)) && Ordinary(FloatLoadOp(inst)) && Ordinary(MiscMemOp(inst))
    ensures Ordinary(StoreOp(inst)) && Ordinary(FloatStoreOp(inst)) && Ordinary(BranchOp(inst))
  {
    hide Funct3;
  }

  lemma ImmediatesAreOrdinary(inst: inst64)
    ensures Ordinary(ImmediateOp(inst)) && Ordinary(ImmediateWordOp(inst)) && Ordinary(ImmediateDoubleOp(inst))
  {
    hide Funct3, Funct5, Funct7;
  }

  lemma RegistersAreOrdinary(inst: inst64)
    ensures Ordinary(RegisterWordOp(inst)) && Ordinary(RegisterDoubleOp(inst)) && Ordinary(FloatOp(inst))
  {
    hide Funct3, Funct7, Funct10;
  }

  lemma RegisterIsOrdinary(inst: inst64)
    ensures Ordinary(RegisterOp(inst))
  {
    hide Funct10;
  }

  lemma QuadrantsAreOrdinary(inst: inst64, isa: Isa)
    requires inst & 3 != 3
    ensures Ordinary(OpcodeOf(inst, isa))
  {
  }

  predicate SystemWord(inst: inst64) { inst & 3 == 3 && Major(inst) == 28 && Funct3(inst) == 0 }

  lemma OnlySystemWords(inst: inst64)
    ensures if Major(inst) == 28 && Funct3(inst) == 0 then Quadrant3(inst) == PrivilegedOp(inst)
            else Ordinary(Quadrant3(inst))
  {
    hide Major, Funct3, LoadOp, FloatLoadOp, MiscMemOp, ImmediateOp, ImmediateWordOp, StoreOp, FloatStoreOp,
      RegisterOp, RegisterWordOp, FloatOp, ImmediateDoubleOp, BranchOp, RegisterDoubleOp, PrivilegedOp;
    LoadsAreOrdinary(inst);
    ImmediatesAreOrdinary(inst);
    RegistersAreOrdinary(inst);
    RegisterIsOrdinary(inst);
  }

  /** The word with this key and these rs2 and rs1 bits. */
  function SystemBits(key: bv12, ten: bv10): inst64 {
    (((key as inst64) & 0xFE0) << 20) | (((key as inst64) & 0x1F) << 7) | ((ten as inst64) << 15) | 0x73
  }

  lemma FieldsOfWord(inst: inst64)
    requires SystemWord(inst)
    ensures LowWord(inst) == SystemBits(PrivilegedKey(inst), LowTen(inst))
  {
  }

  lemma WordHasFields(inst: inst64, key: bv12, ten: bv10)
    requires LowWord(inst) == SystemBits(key, ten)
    ensures SystemWord(inst) && PrivilegedKey(inst) == key && LowTen(inst) == ten
  {
  }

  lemma TenBits(inst: inst64, rs2: bv5)
    ensures Rs2Bits(inst) == rs2 && Rs1Bits(inst) == 0 <==> LowTen(inst) == (rs2 as bv10) << 5
  {
  }

  /** The key, and the rs2 and rs1 bits, of an instruction without free bits. */
  function KeyOf(op: BaseOp): bv12
    requires Privileged(op)
  {
    if op.Ebreak? then 0
    else
      match op.system
      case Ecall | Uret => 0
      case Sret | Wfi | SfenceVm => 256
      case Hret => 512
      case Mret => 768
      case Dret => 1952
      case _ => 288
  }

  function TenOf(op: BaseOp): bv10
    requires Privileged(op)
  {
    if op.Ebreak? then 32
    else
      match op.system
      case Ecall => 0
      case Wfi => 160
      case Dret => 576
      case _ => 64
  }

  predicate WholeWord(op: BaseOp) { Privileged(op) && op != System(SfenceVm) && op != System(SfenceVma) }

  lemma PrivilegedByFields(inst: inst64, op: BaseOp)
    requires WholeWord(op)
    ensures PrivilegedOp(inst) == Base(op) <==> PrivilegedKey(inst) == KeyOf(op) && LowTen(inst) == TenOf(op)
  {
    hide PrivilegedKey, LowTen, Rs2Bits, Rs1Bits;
    TenBits(inst, 2);
    TenBits(inst, 5);
    TenBits(inst, 4);
    ShiftedFives();
  }

  lemma ShiftedFives()
    ensures (2 as bv10) << 5 == 64 && (5 as bv10) << 5 == 160
  {
  }

  lemma PatternIsSystemBits(op: BaseOp)
    requires WholeWord(op)
    ensures Pattern(op) == SystemBits(KeyOf(op), TenOf(op)) && Mask(op) == 0xFFFF_FFFF
  {
  }

  /** The word carries the pattern of the instruction. */
  predicate HasPattern(inst: inst64, op: BaseOp)
    requires Privileged(op)
  {
    inst & Mask(op) == Pattern(op)
  }

  lemma WholePattern(inst: inst64, op: BaseOp)
    requires WholeWord(op)
    ensures HasPattern(inst, op) <==> LowWord(inst) == SystemBits(KeyOf(op), TenOf(op))
  {
    hide Pattern, SystemBits, KeyOf, TenOf, Mask;
    PatternIsSystemBits(op);
  }

  lemma WholeWordIff(inst: inst64, op: BaseOp)
    requires WholeWord(op)
    ensures SystemWord(inst) && PrivilegedOp(inst) == Base(op) <==> HasPattern(inst, op)
  {
    hide SystemWord, PrivilegedOp, PrivilegedKey, LowTen, SystemBits, KeyOf, TenOf, HasPattern, LowWord;
    WholePattern(inst, op);
    PrivilegedByFields(inst, op);
    if SystemWord(inst) && PrivilegedOp(inst) == Base(op) {
      FieldsOfWord(inst);
    }
    if LowWord(inst) == SystemBits(KeyOf(op), TenOf(op)) {
      WordHasFields(inst, KeyOf(op), TenOf(op));
    }
  }

  lemma SfenceByFields(inst: inst64)
    ensures PrivilegedOp(inst) == Base(System(SfenceVm)) <==> PrivilegedKey(inst) == 256 && Rs2Bits(inst) == 4
    ensures PrivilegedOp(inst) == Base(System(SfenceVma)) <==> PrivilegedKey(inst) == 288
  {
    hide PrivilegedKey, LowTen, Rs2Bits, Rs1Bits;
  }

  lemma SfenceVmWord(inst: inst64)
    ensures SystemWord(inst) && PrivilegedKey(inst) == 256 && Rs2Bits(inst) == 4 <==> HasPattern(inst, System(SfenceVm))
  {
  }

  lemma SfenceVmaWord(inst: inst64)
    ensures SystemWord(inst) && PrivilegedKey(inst) == 288 <==> HasPattern(inst, System(SfenceVma))
  {
  }

  lemma PrivilegedByPattern(inst: inst64, op: BaseOp)
    requires Privileged(op)
    ensures SystemWord(inst) && PrivilegedOp(inst) == Base(op) <==> HasPattern(inst, op)
  {
    hide SystemWord, PrivilegedOp, PrivilegedKey, Rs2Bits, HasPattern;
    if WholeWord(op) {
      WholeWordIff(inst, op);
    } else {
      SfenceByFields(inst);
      SfenceVmWord(inst);
      SfenceVmaWord(inst);
    }
  }

  lemma SystemWordDecodes(inst: inst64, isa: Isa)
    ensures if SystemWord(inst) then OpcodeOf(inst, isa) == PrivilegedOp(inst) else Ordinary(OpcodeOf(inst, isa))
  {
    hide OpcodeOf, Quadrant3, PrivilegedOp, Major, Funct3, Ordinary;
    if inst & 3 == 3 {
      FullLengthOpcode(inst, isa);
      OnlySystemWords(inst);
    } else {
      QuadrantsAreOrdinary(inst, isa);
    }
  }

  /** A privileged instruction is decoded from exactly the words with its pattern, on all three ISAs; only the two
      fences of the address translation leave bits free. */
  lemma PrivilegedIffPattern(inst: inst64, op: BaseOp, isa: Isa)
    requires Privileged(op)
    ensures OpcodeOf(inst, isa) == Base(op) <==> inst & Mask(op) == Pattern(op)
  {
    hide OpcodeOf, PrivilegedOp, SystemWord, Mask, Pattern;
    SystemWordDecodes(inst, isa);
    PrivilegedByPattern(inst, op);
    assert HasPattern(inst, op) == (inst & Mask(op) == Pattern(op));
  }

  // ----- the pseudo-instructions without a meaning

  lemma FirstOf(op: BaseOp, f: Fields, k: nat)
    requires k < |PseudoRows(op)| && Matches(PseudoRows(op)[k], f)
    requires forall j | 0 <= j < k :: !Matches(PseudoRows(op)[j], f)
    ensures Lift(Base(op), f) == PseudoRows(op)[k].op
  {
    hide PseudoRows, Matches;
  }

  lemma NoneOf(op: BaseOp, f: Fields)
    requires forall j | 0 <= j < |PseudoRows(op)| :: !Matches(PseudoRows(op)[j], f)
    ensures Lift(Base(op), f) == Base(op)
  {
    hide PseudoRows, Matches;
  }

  lemma TwoConstraints(op: Opcode, c: Constraint, d: Constraint, f: Fields)
    ensures Matches(PseudoRow(op, [c, d]), f) <==> Holds(c, f) && Holds(d, f)
  {
    hide Holds;
    var row := PseudoRow(op, [c, d]);
    if Holds(c, f) && Holds(d, f) {
      assert Matches(row, f);
    } else {
      assert !Holds(row.constraints[0], f) || !Holds(row.constraints[1], f);
    }
  }

  lemma OneConstraint(op: Opcode, c: Constraint, f: Fields)
    ensures Matches(PseudoRow(op, [c]), f) <==> Holds(c, f)
  {
    hide Holds;
    var row := PseudoRow(op, [c]);
    if !Holds(c, f) {
      assert !Holds(row.constraints[0], f);
    }
  }

  /** The CSRs whose reading has a name of its own. */
  function CsrReadName(csr: imm32): Opcode {
    match csr
    case 0xC00 => Pseudo(Rdcycle)
    case 0xC01 => Pseudo(Rdtime)
    case 0xC02 => Pseudo(Rdinstret)
    case 0xC80 => Pseudo(Rdcycleh)
    case 0xC81 => Pseudo(Rdtimeh)
    case 0xC82 => Pseudo(Rdinstreth)
    case 0x003 => Pseudo(Frcsr)
    case 0x002 => Pseudo(Frrm)
    case 0x001 => Pseudo(Frflags)
    case _ => Base(Csrrs)
  }

  /** Their addresses, in the order of the table. */
  const NAMED_READS: seq<imm32> := [0xC00, 0xC01, 0xC02, 0xC80, 0xC81, 0xC82, 0x003, 0x002, 0x001]

  lemma ReadRow(k: nat)
    requires k < 9
    ensures |PseudoRows(Csrrs)| == 9
    ensures PseudoRows(Csrrs)[k] == PseudoRow(CsrReadName(NAMED_READS[k]), [Rs1EqX0, CsrEq(NAMED_READS[k])])
  {
  }

  lemma ReadRowMatches(k: nat, f: Fields)
    requires k < 9
    ensures |PseudoRows(Csrrs)| == 9
    ensures Matches(PseudoRows(Csrrs)[k], f) <==> f.rs1 == 0 && f.imm == NAMED_READS[k]
  {
    hide PseudoRows, CsrReadName, Matches;
    ReadRow(k);
    TwoConstraints(CsrReadName(NAMED_READS[k]), Rs1EqX0, CsrEq(NAMED_READS[k]), f);
  }

  lemma ReadsDiffer(j: nat, k: nat)
    requires j < k < 9
    ensures NAMED_READS[j] != NAMED_READS[k]
  {
  }

  lemma UnnamedRead(csr: imm32)
    requires forall k | 0 <= k < 9 :: NAMED_READS[k] != csr
    ensures CsrReadName(csr) == Base(Csrrs)
  {
    assert NAMED_READS[0] != csr && NAMED_READS[1] != csr && NAMED_READS[2] != csr && NAMED_READS[3] != csr;
    assert NAMED_READS[4] != csr && NAMED_READS[5] != csr && NAMED_READS[6] != csr && NAMED_READS[7] != csr;
    assert NAMED_READS[8] != csr;
  }

  /** csrrs of one of these CSRs is printed by that name exactly when its source is x0. */
  lemma CsrReadLifts(f: Fields)
    ensures Lift(Base(Csrrs), f) == if f.rs1 == 0 then CsrReadName(f.imm) else Base(Csrrs)
  {
    hide Matches, Lift, PseudoRows, CsrReadName;
    ReadRow(0);
    forall k: nat | k < 9 ensures Matches(PseudoRows(Csrrs)[k], f) <==> f.rs1 == 0 && f.imm == NAMED_READS[k] {
      ReadRowMatches(k, f);
    }
    if k: nat :| k < 9 && f.rs1 == 0 && f.imm == NAMED_READS[k] {
      ReadRow(k);
      forall j: nat | j < k ensures NAMED_READS[j] != NAMED_READS[k] {
        ReadsDiffer(j, k);
      }
      FirstOf(Csrrs, f, k);
    } else {
      NoneOf(Csrrs, f);
      if f.rs1 == 0 {
        UnnamedRead(f.imm);
      }
    }
  }

  /** The names of the writes, whatever their source is. */
  function CsrWriteName(csr: imm32): Opcode {
    match csr
    case 0x003 => Pseudo(Fscsr)
    case 0x002 => Pseudo(Fsrm)
    case 0x001 => Pseudo(Fsflags)
    case _ => Base(Csrrw)
  }

  function CsrWriteImmediateName(csr: imm32): Opcode {
    match csr
    case 0x002 => Pseudo(Fsrmi)
    case 0x001 => Pseudo(Fsflagsi)
    case _ => Base(Csrrwi)
  }

  lemma CsrWriteLifts(f: Fields)
    ensures Lift(Base(Csrrw), f) == CsrWriteName(f.imm)
  {
    hide Matches, Lift;
    OneConstraint(Pseudo(Fscsr), CsrEq(0x003), f);
    OneConstraint(Pseudo(Fsrm), CsrEq(0x002), f);
    OneConstraint(Pseudo(Fsflags), CsrEq(0x001), f);
    match f.imm {
      case 0x003 => FirstOf(Csrrw, f, 0);
      case 0x002 => FirstOf(Csrrw, f, 1);
      case 0x001 => FirstOf(Csrrw, f, 2);
      case _ => NoneOf(Csrrw, f);
    }
  }

  lemma CsrWriteImmediateLifts(f: Fields)
    ensures Lift(Base(Csrrwi), f) == CsrWriteImmediateName(f.imm)
  {
    hide Matches, Lift;
    OneConstraint(Pseudo(Fsrmi), CsrEq(0x002), f);
    OneConstraint(Pseudo(Fsflagsi), CsrEq(0x001), f);
    match f.imm {
      case 0x002 => FirstOf(Csrrwi, f, 0);
      case 0x001 => FirstOf(Csrrwi, f, 1);
      case _ => NoneOf(Csrrwi, f);
    }
  }

  lemma WideLifts(w: WideOpcode, f: Fields)
    ensures Lift(Base(Wide(w)), f)
         == if w == Addiw && f.imm == 0 then Pseudo(SextW)
            else if w == Subw && f.rs1 == 0 then Pseudo(Negw) else Base(Wide(w))
  {
    hide Matches, Lift;
    OneConstraint(Pseudo(SextW), ImmEqZero, f);
    OneConstraint(Pseudo(Negw), Rs1EqX0, f);
    if (w == Addiw && f.imm == 0) || (w == Subw && f.rs1 == 0) {
      FirstOf(Wide(w), f, 0);
    } else {
      NoneOf(Wide(w), f);
    }
  }

  /** A sign injection of a register into itself is a move, an absolute value or a negation. */
  function InjectionName(g: FloatOpcode): Opcode {
    match g
    case FsgnjS => Pseudo(FmvS)
    case FsgnjnS => Pseudo(FnegS)
    case FsgnjxS => Pseudo(FabsS)
    case FsgnjD => Pseudo(FmvD)
    case FsgnjnD => Pseudo(FnegD)
    case FsgnjxD => Pseudo(FabsD)
    case FsgnjQ => Pseudo(FmvQ)
    case FsgnjnQ => Pseudo(FnegQ)
    case FsgnjxQ => Pseudo(FabsQ)
    case _ => Base(Float(g))
  }

  lemma InjectionRows(g: FloatOpcode)
    ensures if InjectionName(g).Pseudo? then PseudoRows(Float(g)) == [PseudoRow(InjectionName(g), [Rs2EqRs1])]
            else PseudoRows(Float(g)) == [] && InjectionName(g) == Base(Float(g))
  {
  }

  lemma InjectionLifts(g: FloatOpcode, f: Fields)
    ensures Lift(Base(Float(g)), f) == if f.rs2 == f.rs1 then InjectionName(g) else Base(Float(g))
  {
    hide Matches, Lift, PseudoRows, InjectionName;
    InjectionRows(g);
    OneConstraint(InjectionName(g), Rs2EqRs1, f);
    if InjectionName(g).Pseudo? && f.rs2 == f.rs1 {
      FirstOf(Float(g), f, 0);
    } else {
      NoneOf(Float(g), f);
    }
  }
}
