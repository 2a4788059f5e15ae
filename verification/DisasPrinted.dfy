/** What a printed line loses: two RV32IM instructions with one line are one instruction, the displacement of ret
    apart. */
module DisasPrinted {
  import opened DisasTables
  import opened DisasDecode
  import opened DisasMeaning
  import opened DisasPseudo
  import opened DisasLines
  import opened DisasRoundTrip

  /** The mnemonic and the operands of the line printed for a base instruction. */
  function Line(op: BaseOp, f: Fields): (Opcode, seq<Shown>) {
    var lifted := Lift(Base(op), f);
    (lifted, Print(FormatOf(lifted), f))
  }

  /** The codec of each kind that has operands. */
  predicate KindHasCodec(kind: Kind, codec: Codec) {
    match kind
    case LoadUpper | AddUpperToPc => codec == U
    case JumpAndLink => codec == UJ
    case JumpRegister | Loads(_) => codec == I
    case StoresTo(_) => codec == S
    case Branches(_) => codec == SB
    case WithImmediate(_) => codec == I || codec == ISh7
    case WithRegister(_) => codec == R
    case _ => false
  }

  lemma ArithmeticCodecs(op: BaseOp)
    requires KindOf(op).WithRegister? || KindOf(op).WithImmediate?
    ensures KindHasCodec(KindOf(op), BaseCodec(op))
  {
  }

  lemma MemoryCodecs(op: BaseOp)
    requires KindOf(op).Loads? || KindOf(op).StoresTo? || KindOf(op).Branches?
    ensures KindHasCodec(KindOf(op), BaseCodec(op))
  {
  }

  lemma UpperCodecs(op: BaseOp)
    requires KindOf(op).LoadUpper? || KindOf(op).AddUpperToPc?
    ensures KindHasCodec(KindOf(op), BaseCodec(op))
  {
  }

  lemma JumpCodecs(op: BaseOp)
    requires KindOf(op).JumpAndLink? || KindOf(op).JumpRegister?
    ensures KindHasCodec(KindOf(op), BaseCodec(op))
  {
  }

  lemma EncodableIsNotBreak(op: BaseOp)
    requires Encodable(op)
    ensures KindOf(op) != Break
  {
  }

  lemma KindCodec(op: BaseOp)
    requires Encodable(op) && KindOf(op) != OtherKind
    ensures KindHasCodec(KindOf(op), BaseCodec(op))
  {
    hide KindOf, BaseCodec, KindHasCodec, Encodable;
    EncodableIsNotBreak(op);
    match KindOf(op) {
      case WithRegister(_) => ArithmeticCodecs(op);
      case WithImmediate(_) => ArithmeticCodecs(op);
      case Loads(_) => MemoryCodecs(op);
      case StoresTo(_) => MemoryCodecs(op);
      case Branches(_) => MemoryCodecs(op);
      case JumpAndLink => JumpCodecs(op);
      case JumpRegister => JumpCodecs(op);
      case _ => UpperCodecs(op);
    }
  }

  /** The operands a base line shows, with the zeros of its format, are all its fields. */
  lemma BaseOperandsDetermine(kind: Kind, codec: Codec, f: Fields, g: Fields)
    requires KindHasCodec(kind, codec) && InRange(codec, f) && InRange(codec, g)
    requires Print(KindFormat(kind), f) == Print(KindFormat(kind), g)
    ensures f == g
  {
    hide IsRegister, FitsUpper, FitsJump, Fits12, FitsCsr, FitsShift, FitsBranch, Widened;
    var format := KindFormat(kind);
    assert Show(format[0], f) == Show(format[0], g);
    assert Show(format[1], f) == Show(format[1], g);
    assert |format| > 2 ==> Show(format[2], f) == Show(format[2], g);
  }

  lemma ImmediateOperandsDetermine(p: PseudoOp, f: Fields, g: Fields)
    requires p.Nop? || p.Mv? || p.Not? || p.Seqz? || p.Jr? || p.Ret? || p.J?
    requires Needs(p, f) && Needs(p, g) && InRange(PseudoCodec(p), f) && InRange(PseudoCodec(p), g)
    requires Print(PseudoFormat(p), f) == Print(PseudoFormat(p), g)
    ensures f == g || (p == Ret && f.(imm := 0) == g.(imm := 0))
  {
    hide IsRegister, FitsUpper, FitsJump, Fits12, FitsCsr, FitsShift, FitsBranch, Widened;
    var format := PseudoFormat(p);
    assert |format| > 0 ==> Show(format[0], f) == Show(format[0], g);
    assert |format| > 1 ==> Show(format[1], f) == Show(format[1], g);
  }

  lemma RegisterOperandsDetermine(p: PseudoOp, f: Fields, g: Fields)
    requires p.Neg? || p.Snez? || p.Sltz? || p.Sgtz?
    requires Needs(p, f) && Needs(p, g) && InRange(PseudoCodec(p), f) && InRange(PseudoCodec(p), g)
    requires Print(PseudoFormat(p), f) == Print(PseudoFormat(p), g)
    ensures f == g || (p == Ret && f.(imm := 0) == g.(imm := 0))
  {
    hide IsRegister, FitsUpper, FitsJump, Fits12, FitsCsr, FitsShift, FitsBranch, Widened;
    var format := PseudoFormat(p);
    assert |format| > 0 ==> Show(format[0], f) == Show(format[0], g);
    assert |format| > 1 ==> Show(format[1], f) == Show(format[1], g);
  }

  lemma ZeroBranchOperandsDetermine(p: PseudoOp, f: Fields, g: Fields)
    requires p.Beqz? || p.Bnez? || p.Bltz? || p.Bgez? || p.Bgtz? || p.Blez?
    requires Needs(p, f) && Needs(p, g) && InRange(PseudoCodec(p), f) && InRange(PseudoCodec(p), g)
    requires Print(PseudoFormat(p), f) == Print(PseudoFormat(p), g)
    ensures f == g || (p == Ret && f.(imm := 0) == g.(imm := 0))
  {
    hide IsRegister, FitsUpper, FitsJump, Fits12, FitsCsr, FitsShift, FitsBranch, Widened;
    var format := PseudoFormat(p);
    assert |format| > 0 ==> Show(format[0], f) == Show(format[0], g);
    assert |format| > 1 ==> Show(format[1], f) == Show(format[1], g);
  }

  lemma SwappedOperandsDetermine(p: PseudoOp, f: Fields, g: Fields)
    requires p.Bgt? || p.Ble? || p.Bgtu? || p.Bleu?
    requires Needs(p, f) && Needs(p, g) && InRange(PseudoCodec(p), f) && InRange(PseudoCodec(p), g)
    requires Print(PseudoFormat(p), f) == Print(PseudoFormat(p), g)
    ensures f == g || (p == Ret && f.(imm := 0) == g.(imm := 0))
  {
    hide IsRegister, FitsUpper, FitsJump, Fits12, FitsCsr, FitsShift, FitsBranch, Widened;
    var format := PseudoFormat(p);
    assert |format| > 0 ==> Show(format[0], f) == Show(format[0], g);
    assert |format| > 1 ==> Show(format[1], f) == Show(format[1], g);
    assert |format| > 2 ==> Show(format[2], f) == Show(format[2], g);
  }

  /** So are the operands a pseudo-instruction shows, with the constraints of its row. */
  lemma PseudoOperandsDetermine(p: PseudoOp, f: Fields, g: Fields)
    requires ForInteger(p) && Needs(p, f) && Needs(p, g) && InRange(PseudoCodec(p), f) && InRange(PseudoCodec(p), g)
    requires Print(PseudoFormat(p), f) == Print(PseudoFormat(p), g)
    ensures f == g || (p == Ret && f.(imm := 0) == g.(imm := 0))
  {
    hide Needs, InRange, PseudoCodec, PseudoFormat, Print;
    if p.Nop? || p.Mv? || p.Not? || p.Seqz? || p.Jr? || p.Ret? || p.J? {
      ImmediateOperandsDetermine(p, f, g);
    } else if p.Neg? || p.Snez? || p.Sltz? || p.Sgtz? {
      RegisterOperandsDetermine(p, f, g);
    } else if p.Bgt? || p.Ble? || p.Bgtu? || p.Bleu? {
      SwappedOperandsDetermine(p, f, g);
    } else {
      ZeroBranchOperandsDetermine(p, f, g);
    }
  }

  lemma LiftedNeeds(op: BaseOp, f: Fields)
    requires KindOf(op) != OtherKind && Lift(Base(op), f).Pseudo?
    ensures var p := Lift(Base(op), f).pseudo; Needs(p, f) && ForInteger(p) && PseudoCodec(p) == BaseCodec(op)
  {
    hide KindOf, PseudoRows, Matches, Needs, ForInteger, PseudoCodec, BaseCodec, BaseOf;
    var k := FirstMatch(PseudoRows(op), f, 0);
    RowsGiveNeeds(op, f, k);
    RowsLeadBack(op, k);
    IntegerPseudos(PseudoRows(op)[k].op.pseudo);
  }

  /** Two encodable RV32IM instructions that print the same mnemonic and the same operands are the same instruction,
      or two returns through ra that differ in the displacement the line leaves out. */
  lemma LineDetermines(a: BaseOp, f: Fields, b: BaseOp, g: Fields)
    requires Encodable(a) && KindOf(a) != OtherKind && InRange(BaseCodec(a), f)
    requires Encodable(b) && KindOf(b) != OtherKind && InRange(BaseCodec(b), g)
    requires Line(a, f) == Line(b, g)
    ensures a == b
    ensures f == g || (Line(a, f).0 == Pseudo(Ret) && f.(imm := 0) == g.(imm := 0))
  {
    hide Encodable, KindOf, InRange, BaseCodec, Lift, BaseFormat, PseudoFormat, KindFormat, KindHasCodec, ForInteger,
      Needs, BaseOf, PseudoCodec, Print;
    LiftIsInvertible(Base(a), f);
    LiftIsInvertible(Base(b), g);
    var lifted := Lift(Base(a), f);
    if lifted.Pseudo? {
      LiftedNeeds(a, f);
      LiftedNeeds(b, g);
      PseudoOperandsDetermine(lifted.pseudo, f, g);
    } else {
      FormatOfKind(a);
      KindCodec(a);
      BaseOperandsDetermine(KindOf(a), BaseCodec(a), f, g);
    }
  }
}
