/** The printed sets of a fence, and when the line says which fence it is. */
module DisasFence {
  import opened DisasTables
  import opened DisasDecode

  /** The predecessor or successor set: device input and output, memory reads and writes. */
  datatype FenceSet = FenceSet(i: bool, o: bool, r: bool, w: bool)

  const EMPTY := FenceSet(false, false, false, false)

  function SetOf(bits: bv4): FenceSet {
    FenceSet(bits & 8 != 0, bits & 4 != 0, bits & 2 != 0, bits & 1 != 0)
  }

  function OperandPred(inst: inst64): bv4 { (((inst << 36) >> 60) & 0xF) as bv4 }
  function OperandSucc(inst: inst64): bv4 { (((inst << 40) >> 60) & 0xF) as bv4 }

  /** The letters decode_inst_format appends for a set. */
  function SetText(s: FenceSet): string {
    Letter(s.i, 'i') + Letter(s.o, 'o') + Letter(s.r, 'r') + Letter(s.w, 'w')
  }

  function Letter(on: bool, c: char): string { if on then [c] else [] }

  // ----- the instruction and the assembler's reading

  /** A fence as section 2.7 of the RISC-V Unprivileged ISA (20191213) lays it out; rd and rs1 are ignored. */
  datatype FenceInstruction = Ordering(fm: bv4, pred: FenceSet, succ: FenceSet)

  function FenceOf(inst: inst64): FenceInstruction {
    Ordering(((inst >> 28) & 0xF) as bv4, SetOf(((inst >> 24) & 0xF) as bv4), SetOf(((inst >> 20) & 0xF) as bv4))
  }

  datatype Option<T> = None | Some(value: T)

  predicate StartsWith(text: string, c: char) { text != [] && text[0] == c }

  function Rest(text: string, c: char): string { if StartsWith(text, c) then text[1..] else text }

  /** A set is written as its letters in the order iorw; the empty word is no operand. */
  function ReadSet(text: string): Option<FenceSet> {
    var t1 := Rest(text, 'i');
    var t2 := Rest(t1, 'o');
    var t3 := Rest(t2, 'r');
    if text == [] || Rest(t3, 'w') != [] then None
    else Some(FenceSet(StartsWith(text, 'i'), StartsWith(t1, 'o'), StartsWith(t2, 'r'), StartsWith(t3, 'w')))
  }

  /** The fence an assembler makes of two printed sets: the mnemonic fence has fm zero. */
  function ReadFence(pred: string, succ: string): Option<FenceInstruction> {
    if ReadSet(pred).None? || ReadSet(succ).None? then None
        else Some(Ordering(0, ReadSet(pred).value, ReadSet(succ).value))
  }

  lemma RestOfLetter(on: bool, c: char, tail: string)
    requires !StartsWith(tail, c)
    ensures Rest(Letter(on, c) + tail, c) == tail
    ensures StartsWith(Letter(on, c) + tail, c) == on
  {
    if on {
      assert (Letter(on, c) + tail)[1..] == tail;
    } else {
      assert Letter(on, c) + tail == tail;
    }
  }

  lemma SetReadsBack(s: FenceSet)
    ensures ReadSet(SetText(s)) == if s == EMPTY then None else Some(s)
  {
    hide Rest;
    var w := Letter(s.w, 'w');
    var r := Letter(s.r, 'r') + w;
    var o := Letter(s.o, 'o') + r;
    assert SetText(s) == Letter(s.i, 'i') + o;
    RestOfLetter(s.i, 'i', o);
    RestOfLetter(s.o, 'o', r);
    RestOfLetter(s.r, 'r', w);
    assert w == w + [];
    RestOfLetter(s.w, 'w', []);
  }

  lemma OperandsAreFields(inst: inst64)
    ensures OperandPred(inst) == ((inst >> 24) & 0xF) as bv4
    ensures OperandSucc(inst) == ((inst >> 20) & 0xF) as bv4
  {
  }

  /** A fence line is read back as the fence it was printed for exactly when fm is zero and neither set is empty. */
  lemma FenceLineIsExact(inst: inst64)
    ensures ReadFence(SetText(SetOf(OperandPred(inst))), SetText(SetOf(OperandSucc(inst)))) == Some(FenceOf(inst))
       <==> FenceOf(inst).fm == 0 && FenceOf(inst).pred != EMPTY && FenceOf(inst).succ != EMPTY
  {
    hide SetOf, SetText, ReadSet, OperandPred, OperandSucc;
    OperandsAreFields(inst);
    SetReadsBack(SetOf(OperandPred(inst)));
    SetReadsBack(SetOf(OperandSucc(inst)));
  }

  /** fence.tso is decoded as fence, and its line is that of fence rw,rw. */
  lemma TsoIsMisprinted(isa: Isa)
    ensures OpcodeOf(0x8330_000F, isa) == Base(System(Fence))
    ensures SetText(SetOf(OperandPred(0x8330_000F))) == "rw" && SetText(SetOf(OperandSucc(0x8330_000F))) == "rw"
    ensures FenceOf(0x8330_000F).fm == 8
    ensures ReadFence("rw", "rw") != Some(FenceOf(0x8330_000F))
  {
    hide Quadrant0, Quadrant1, Quadrant2;
    var tso := FenceOf(0x8330_000F);
    assert tso.fm == 8;
  }
}
