/** rv_decode and the passes that update it in place, from the instruction word to the opcode and operands that are
    printed. */
module DisasPipeline {
  import opened Architecture
  import opened DisasMeaning
  import opened DisasTables
  import opened DisasDecode
  import opened DisasCompressed
  import opened DisasPseudo
  import opened DisasLines
  import opened DisasRoundTrip

  class RvDecode {
    const inst: inst64
    var op: Opcode
    var codec: Codec
    var rd: reg
    var rs1: reg
    var rs2: reg
    var imm: imm32

    /** The register numbers index the name tables of decode_inst_format. */
    predicate Valid()
      reads this
    {
      IsRegister(rd) && IsRegister(rs1) && IsRegister(rs2)
    }

    /** The struct as initialised by disasm_inst: everything but the word is zero. */
    constructor (word: inst64)
      ensures Valid() && inst == word && op == Illegal && codec == CodecIllegal && Operands() == Fields(0, 0, 0, 0)
    {
      inst, op, codec := word, Illegal, CodecIllegal;
      rd, rs1, rs2, imm := 0, 0, 0, 0;
    }

    function Operands(): Fields
      reads this
    {
      Fields(rd, rs1, rs2, imm)
    }

    /** The outer switch of decode_inst_opcode, over the length bits. */
    method DecodeOpcode(isa: Isa)
      modifies `op
      ensures op == OpcodeOf(inst, isa)
    {
      hide Quadrant0, Quadrant1, Quadrant2, Quadrant3;
      match inst & 3 {
        case 0 => op := Quadrant0(inst, isa);
        case 1 => op := Quadrant1(inst, isa);
        case 2 => op := Quadrant2(inst, isa);
        case _ => op := Quadrant3(inst);
      }
    }

    /** decode_inst_operands: the registers it sets index the name tables. */
    method DecodeOperands()
      requires Valid()
      modifies `codec, `rd, `rs1, `rs2, `imm
      ensures Valid()
      ensures codec == CodecOf(op) && Operands() == OperandsOf(inst, CodecOf(op), old(Operands()))
    {
      hide CodecOf, IsRegister, OperandsOf;
      codec := CodecOf(op);
      RegistersInRange(inst, codec, Operands());
      FillOperands();
    }

    /** Its switch: the fields a codec does not name are set to zero, and a codec without a case keeps them all. */
    method FillOperands()
      modifies `rd, `rs1, `rs2, `imm
      ensures Operands() == OperandsOf(inst, codec, old(Operands()))
    {
      hide CompactOperandsOf;
      match codec {
        case CodecNone | RF => rd, rs1, rs2, imm := ZERO, ZERO, ZERO, 0;
        case U => rd, rs1, rs2, imm := OperandRd(inst), ZERO, ZERO, OperandImm20(inst);
        case UJ => rd, rs1, rs2, imm := OperandRd(inst), ZERO, ZERO, OperandJimm20(inst);
        case I => rd, rs1, rs2, imm := OperandRd(inst), OperandRs1(inst), ZERO, OperandImm12(inst);
        case ISh5 => rd, rs1, rs2, imm := OperandRd(inst), OperandRs1(inst), ZERO, OperandShamt5(inst);
        case ISh6 => rd, rs1, rs2, imm := OperandRd(inst), OperandRs1(inst), ZERO, OperandShamt6(inst);
        case ISh7 => rd, rs1, rs2, imm := OperandRd(inst), OperandRs1(inst), ZERO, OperandShamt7(inst);
        case ICsr => rd, rs1, rs2, imm := OperandRd(inst), OperandRs1(inst), ZERO, OperandCsr12(inst);
        case S => rd, rs1, rs2, imm := ZERO, OperandRs1(inst), OperandRs2(inst), OperandSimm12(inst);
        case SB => rd, rs1, rs2, imm := ZERO, OperandRs1(inst), OperandRs2(inst), OperandSbimm12(inst);
        case R => rd, rs1, rs2, imm := OperandRd(inst), OperandRs1(inst), OperandRs2(inst), 0;
        case Compact(c) => FillCompactOperands(c);
        case CodecIllegal | FloatOrAtomicCodec =>
      }
    }

    /** Its cases for the codecs of 16-bit words. */
    method FillCompactOperands(c: CompactCodec)
      modifies `rd, `rs1, `rs2, `imm
      ensures Operands() == CompactOperandsOf(inst, c)
    {
      hide Short;
      match c {
        case CB => rd, rs1, rs2, imm := ZERO, Short(OperandCrs1q(inst)), ZERO, OperandCimmb(inst);
        case CBImm => rd, rs1, rs2, imm := Short(OperandCrs1q(inst)), Short(OperandCrs1q(inst)), ZERO,
          OperandCimmi(inst);
        case CBSh6 => rd, rs1, rs2, imm := Short(OperandCrs1q(inst)), Short(OperandCrs1q(inst)), ZERO,
          OperandCimmsh6(inst);
        case CI => rd, rs1, rs2, imm := OperandCrd(inst), OperandCrd(inst), ZERO, OperandCimmi(inst);
        case CISh6 => rd, rs1, rs2, imm := OperandCrd(inst), OperandCrd(inst), ZERO, OperandCimmsh6(inst);
        case CI16sp => rd, rs1, rs2, imm := SP, SP, ZERO, OperandCimm16sp(inst);
        case CILi => rd, rs1, rs2, imm := OperandCrd(inst), ZERO, ZERO, OperandCimmi(inst);
        case CILui => rd, rs1, rs2, imm := OperandCrd(inst), ZERO, ZERO, OperandCimmui(inst);
        case CIW4spn => rd, rs1, rs2, imm := Short(OperandCrdq(inst)), SP, ZERO, OperandCimm4spn(inst);
        case CJ_ => rd, rs1, rs2, imm := ZERO, ZERO, ZERO, OperandCimmj(inst);
        case CJJal => rd, rs1, rs2, imm := RA, ZERO, ZERO, OperandCimmj(inst);
        case CILwsp => rd, rs1, rs2, imm := OperandCrd(inst), SP, ZERO, OperandCimmlwsp(inst);
        case CILdsp => rd, rs1, rs2, imm := OperandCrd(inst), SP, ZERO, OperandCimmldsp(inst);
        case CILqsp => rd, rs1, rs2, imm := OperandCrd(inst), SP, ZERO, OperandCimmlqsp(inst);
        case CLLw => rd, rs1, rs2, imm := Short(OperandCrdq(inst)), Short(OperandCrs1q(inst)), ZERO, OperandCimmw(inst);
        case CLLd => rd, rs1, rs2, imm := Short(OperandCrdq(inst)), Short(OperandCrs1q(inst)), ZERO, OperandCimmd(inst);
        case CLLq => rd, rs1, rs2, imm := Short(OperandCrdq(inst)), Short(OperandCrs1q(inst)), ZERO, OperandCimmq(inst);
        case CSSw => rd, rs1, rs2, imm := ZERO, Short(OperandCrs1q(inst)), Short(OperandCrdq(inst)), OperandCimmw(inst);
        case CSSd => rd, rs1, rs2, imm := ZERO, Short(OperandCrs1q(inst)), Short(OperandCrdq(inst)), OperandCimmd(inst);
        case CSSq => rd, rs1, rs2, imm := ZERO, Short(OperandCrs1q(inst)), Short(OperandCrdq(inst)), OperandCimmq(inst);
        case CSSSwsp => rd, rs1, rs2, imm := ZERO, SP, OperandCrs2(inst), OperandCimmswsp(inst);
        case CSSSdsp => rd, rs1, rs2, imm := ZERO, SP, OperandCrs2(inst), OperandCimmsdsp(inst);
        case CSSSqsp => rd, rs1, rs2, imm := ZERO, SP, OperandCrs2(inst), OperandCimmsqsp(inst);
        case CINone => rd, rs1, rs2, imm := ZERO, ZERO, ZERO, 0;
        case CR => rd, rs1, rs2, imm := OperandCrd(inst), OperandCrd(inst), OperandCrs2(inst), 0;
        case CRMv => rd, rs1, rs2, imm := OperandCrd(inst), OperandCrs2(inst), ZERO, 0;
        case CRJalr => rd, rs1, rs2, imm := RA, OperandCrd(inst), ZERO, 0;
        case CRJr => rd, rs1, rs2, imm := ZERO, OperandCrd(inst), ZERO, 0;
        case CS => rd, rs1, rs2, imm := Short(OperandCrs1q(inst)), Short(OperandCrs1q(inst)), Short(OperandCrdq(inst)),
          0;
      }
    }

    /** Marking a zero immediate illegal leaves the codec as it was. */
    method Decompress(isa: Isa)
      modifies `op, `codec
      ensures op == DisasCompressed.Decompress(old(op), imm, isa)
      ensures codec == if op == old(op) || op == Illegal then old(codec) else CodecOf(op)
    {
      hide CodecOf, DecompressedOp, NeedsNonZero;
      if op.Compressed? {
        var target := DecompressedOp(op.comp, isa);
        if target != Illegal {
          TargetsAreFullLength(op.comp, isa);
          if NeedsNonZero(op.comp) && imm == 0 {
            op := Illegal;
          } else {
            op := target;
            codec := CodecOf(target);
          }
        }
      }
    }

    method CheckConstraints(constraints: seq<Constraint>) returns (ok: bool)
      ensures ok <==> forall k :: 0 <= k < |constraints| ==> Holds(constraints[k], Operands())
    {
      var i := 0;
      while i < |constraints|
        invariant 0 <= i <= |constraints|
        invariant forall k :: 0 <= k < i ==> Holds(constraints[k], Operands())
      {
        if !Holds(constraints[i], Operands()) {
          return false;
        }
        i := i + 1;
      }
      return true;
    }

    method LiftPseudo()
      modifies `op, `codec
      ensures op == Lift(old(op), Operands())
      ensures old(codec) == CodecOf(old(op)) ==> codec == CodecOf(op)
    {
      hide Holds, PseudoRows, CodecOf;
      if !op.Base? {
        return;
      }
      var rows := PseudoRows(op.base);
      var i := 0;
      while i < |rows|
        invariant 0 <= i <= |rows| && op == old(op) && codec == old(codec)
        invariant forall j :: 0 <= j < i ==> !Matches(rows[j], Operands())
      {
        var ok := CheckConstraints(rows[i].constraints);
        if ok {
          op := rows[i].op;
          codec := CodecOf(op);
          return;
        }
        i := i + 1;
      }
    }

    /** disasm_inst up to the call of decode_inst_format. */
    method Disassemble(isa: Isa)
      requires Valid()
      modifies this
      ensures Valid()
      ensures Operands() == OperandsOf(inst, CodecOf(OpcodeOf(inst, isa)), old(Operands()))
      ensures op == Lift(Expanded(inst, isa, old(Operands())), Operands())
      ensures op != Illegal ==> codec == CodecOf(op)
    {
      hide CodecOf, OperandsOf, OpcodeOf, PseudoRows, DisasCompressed.Decompress;
      DecodeOpcode(isa);
      DecodeOperands();
      Decompress(isa);
      LiftPseudo();
    }
  }

  /** The pipeline on a full-length word: the line printed for an encoded RV32IM instruction has the effect of that
      instruction for every value of ra exactly when it is not misprinted, and then in every state with x0 = 0. */
  lemma EncodedLinePreservesMeaning(op: BaseOp, f: Fields, isa: Isa, s: Arch, prior: Fields)
    requires Encodable(op) && KindOf(op) != OtherKind && InRange(BaseCodec(op), f) && ZeroHardwired(s)
    ensures Expanded(Encode(op, f), isa, prior) == Base(op)
    ensures var g := OperandsOf(Encode(op, f), BaseCodec(op), prior);
      && ((forall v :: AgreesWhenRa(op, g, 4, s, v)) <==> !Misprinted(op, f))
      && (!Misprinted(op, f) ==> PrintedMeaning(op, g, 4, s) == Execute(op, f, 4, s))
  {
    hide Encodable, KindOf, InRange, BaseCodec, ZeroHardwired, OpcodeOf, OperandsOf, Encode, PrintedMeaning, Execute,
      AgreesWhenRa, Misprinted;
    DecodeEncoded(op, f, isa, prior);
    LineIsExact(op, f, 4, s);
    if !Misprinted(op, f) {
      LiftPreservesMeaning(op, f, 4, s);
    }
  }
}
