/** What whole rounds leave behind, in numbers: the next pc, the causes of traps, the values of CSR instructions,
    the branches, and the interrupt. */
module HartEffects {
  import opened FlatMemory
  import opened SparseMemory
  import opened Arith
  import opened Alu
  import opened AluMeaning
  import opened HartSpec
  import opened HartRuns
  import opened HartInterrupts

  // ----- addresses as numbers

  lemma ForwardValue(w: word, n: word)
    ensures Value(Forward(w, n)) == Wrap(Value(w) + Value(n))
  {
    hide Value, Wrap;
    assert Forward(w, n) == Sum(w, n);
    SumOnValues(w, n);
  }

  lemma BaseByHalves(w: word)
    ensures BaseAddress(w) == Twice(Twice(Half(Half(w))))
    ensures Small(Twice(Half(Half(w))))
  {
  }

  lemma BaseAddressValue(w: word)
    ensures Value(BaseAddress(w)) == Value(w) / 4 * 4
  {
    hide Value, BaseAddress, Half, Twice, Odd, Small;
    BaseByHalves(w);
    Halves(w);
    Halves(Half(w));
    HalfIsSmall(Half(w));
    TwiceValue(Half(Half(w)));
    TwiceValue(Twice(Half(Half(w))));
  }

  /** The saved pc of a trap: the word the pc is in, or the word after it. */
  lemma SavedPcValue(pc: word, cause: TrapCause)
    ensures var here := Value(pc) / 4 * 4;
      Value(SavedPc(pc, cause))
      == if IsEcall(cause) || cause.Breakpoint? then here else (here + 4) % 0x1_0000_0000
  {
    hide Value, BaseAddress, Forward;
    BaseAddressValue(pc);
    ForwardValue(BaseAddress(pc), 4);
    BaseAddressValue(Forward(BaseAddress(pc), 4));
    FourValue();
  }

  lemma FourValue()
    ensures Value(2) == 2 && Value(4) == 4 && Value(28) == 28
  {
  }

  // ----- the pc a round ends at

  lemma CommitPc(cfg: Config, s: Hart)
    requires !TakenAfter(cfg, s)
    ensures Commit(cfg, s).pc == ProgramCounter(s.pc.next, s.pc.next)
  {
    hide TimerAsserted, TakesTimer, SetPending;
    assert SetPending(s.csrs) == SetPending(s.(pc := ProgramCounter(s.pc.next, s.pc.next)).csrs);
  }

  /** A round that takes no interrupt ends at the pc its step left as the next one. */
  lemma RoundPc(cfg: Config, h: Hart)
    requires Round(cfg, h).Ok? && !InterruptTaken(cfg, h)
    ensures var next := Step(cfg, h).hart.pc.next; Round(cfg, h).hart.pc == ProgramCounter(next, next)
  {
    hide Step, Commit, TakenAfter;
    CommitPc(cfg, Step(cfg, h).hart);
  }

  lemma RaiseSets(mip: word)
    ensures Raise(mip) & 0x80 == 0x80
  {
  }

  lemma RaiseKeeps(mip: word)
    ensures Raise(mip) & 0xFFFF_FF7F == mip & 0xFFFF_FF7F
  {
  }

  /** Bit 7 is set and no other bit changes. */
  predicate PendingSet(mip: word, after: word) { after & 0x80 == 0x80 && after & 0xFFFF_FF7F == mip & 0xFFFF_FF7F }

  lemma RaiseIsSet(mip: word)
    ensures PendingSet(mip, Raise(mip))
  {
    hide Raise;
    RaiseSets(mip);
    RaiseKeeps(mip);
  }

  /** What a round that takes no interrupt keeps of its step: the pending bit of mip apart, everything. */
  lemma QuietRound(cfg: Config, h: Hart)
    requires Step(cfg, h).Ok? && !InterruptTaken(cfg, h)
    ensures Round(cfg, h).Ok?
    ensures var s, r := Step(cfg, h).hart, Round(cfg, h).hart;
      && r.pc == ProgramCounter(s.pc.next, s.pc.next) && r.mode == s.mode && r.gprs.x == s.gprs.x && r.mem == s.mem
      && (forall a: CsrIndex | a != 0x344 :: r.csrs.value[a] == s.csrs.value[a])
      && (if TimerAsserted(cfg, s.mem)
          then PendingSet(s.csrs.value[0x344], r.csrs.value[0x344])
          else r.csrs.value[0x344] == s.csrs.value[0x344])
  {
    hide Step, Commit, TakesTimer, TimerAsserted, TimerWrites, Raise, PendingSet;
    RoundPc(cfg, h);
    RaiseIsSet(Step(cfg, h).hart.csrs.value[0x344]);
    CommitFrame(cfg, Step(cfg, h).hart);
  }

  // ----- traps

  /** The round from h to r traps: cause, value and pc are in the registers of the mode, and the handler is next. */
  predicate TrapsWith(h: Hart, r: Hart, cause: word, pc: int) {
    var m := h.mode * 0x100;
    && r.csrs.value[m + 0x42] == cause && r.csrs.value[m + 0x43] == 0 && Value(r.csrs.value[m + 0x41]) == pc
    && Value(r.pc.pc) == Value(h.csrs.value[m + 0x05]) / 4 * 4
    && r.mode == h.mode && r.gprs.x == h.gprs.x
  }

  lemma TrapKeepsEntry(c: Csrs, mode: Privilege, pc: word, cause: TrapCause)
    ensures TrapEntry(TrapWrites(c, mode, pc, cause).value, mode) == TrapEntry(c.value, mode)
  {
    hide BaseAddress, Code, SavedPc;
  }

  lemma ExceptionRound(cfg: Config, h: Hart, cause: TrapCause)
    requires Step(cfg, h) == Ok(Exception(cfg, BeforeExec(cfg, h), cause)) && !InterruptTaken(cfg, h)
    ensures Round(cfg, h).Ok?
    ensures TrapsWith(h, Round(cfg, h).hart, Code(cause), Value(SavedPc(h.pc.pc, cause)))
  {
    hide Step, Round, Exception, Fetch, Advance, Commit, TakesTimer, TimerAsserted, BaseAddress, Code, SavedPc, Value,
      ValidPc, TrapWrites, InterruptTaken;
    var b := BeforeExec(cfg, h);
    AdvanceFrame(cfg, h, Fetch(cfg, h));
    ExceptionFrame(cfg, b, cause);
    QuietRound(cfg, h);
    TrapRecords(b.csrs, h.mode, h.pc.pc, cause, 0);
    TrapKeepsEntry(h.csrs, h.mode, h.pc.pc, InstAccessFault);
    BaseAddressValue(h.csrs.value[h.mode * 0x100 + 0x05]);
  }

  /** The word after the one the pc is in. */
  function NextWord(pc: word): int { (Value(pc) / 4 * 4 + 4) % 0x1_0000_0000 }

  /** An illegal instruction leaves cause 2 and the address of the next word. */
  lemma IllegalRound(cfg: Config, h: Hart)
    requires Fetch(cfg, h).tgt.Illegal? && !InterruptTaken(cfg, h)
    ensures Round(cfg, h).Ok? && TrapsWith(h, Round(cfg, h).hart, 2, NextWord(h.pc.pc))
  {
    hide Exception, Fetch, Advance, Commit, InterruptTaken, Value, SavedPc, TrapsWith;
    AdvanceFrame(cfg, h, Fetch(cfg, h));
    ExceptionRound(cfg, h, InstIllegal);
    SavedPcValue(h.pc.pc, InstIllegal);
  }

  /** An ebreak leaves cause 3 and the word it is in. */
  lemma EbreakRound(cfg: Config, h: Hart)
    requires Fetch(cfg, h).tgt.Ebreak? && !InterruptTaken(cfg, h)
    ensures Round(cfg, h).Ok? && TrapsWith(h, Round(cfg, h).hart, 3, Value(h.pc.pc) / 4 * 4)
  {
    hide Exception, Fetch, Advance, Commit, InterruptTaken, Value, SavedPc, TrapsWith;
    AdvanceFrame(cfg, h, Fetch(cfg, h));
    ExceptionRound(cfg, h, Breakpoint);
    SavedPcValue(h.pc.pc, Breakpoint);
  }

  /** An ecall leaves a cause that tells the mode, and the word it is in. */
  lemma EcallRound(cfg: Config, h: Hart)
    requires Fetch(cfg, h).tgt.Ecall? && !InterruptTaken(cfg, h)
    ensures Round(cfg, h).Ok?
    ensures var cause := if h.mode == 0 then 8 else if h.mode == 1 then 0x10 else if h.mode == 2 then 9 else 0x11;
            TrapsWith(h, Round(cfg, h).hart, cause, Value(h.pc.pc) / 4 * 4)
  {
    hide Exception, Fetch, Advance, Commit, InterruptTaken, Value, SavedPc, TrapsWith;
    AdvanceFrame(cfg, h, Fetch(cfg, h));
    ExceptionRound(cfg, h, EcallCause(h.mode));
    SavedPcValue(h.pc.pc, EcallCause(h.mode));
  }

  /** The pc lies in one of the ranges the program may run in. */
  predicate PcAllowed(cfg: Config, h: Hart) {
    exists i | 0 <= i < |cfg.allowedPcs| :: cfg.allowedPcs[i].0 <= Value(h.pc.pc) <= cfg.allowedPcs[i].1
  }

  /** The executed instruction neither traps itself nor writes CSR a. */
  predicate LeavesCsr(op: Op, mode: Privilege, a: CsrIndex) {
    match op.tgt
    case StoreTarget | AluTarget | LoadTarget | BranchTarget => true
    case Mret => a != 0x300
    case CsrTarget =>
      op.opt.SysType? ==>
        var d := CsrDecision(op, op.opt.sys, mode, At(op.imm));
        d.CsrOnlyReads? || (d.CsrWrites? && d.index != a)
    case Ecall | Illegal | Ebreak => false
  }

  lemma ExecLeavesCsr(cfg: Config, h: Hart, a: CsrIndex)
    requires Exec(cfg, h).Ok? && LeavesCsr(h.dec, h.mode, a)
    ensures Exec(cfg, h).hart.csrs.value[a] == h.csrs.value[a]
  {
    hide CsrDecision, CsrOperand, CsrOldValue, PopStatus, PreviousPrivilege, Load, StoreValue, ShouldBranch, At;
  }

  lemma PcAllowedIsValid(cfg: Config, h: Hart)
    ensures PcAllowed(cfg, h) <==> ValidPc(cfg, h.pc.pc)
  {
    hide Value;
  }

  lemma AccessFaultWrites(c: Csrs, mode: Privilege, pc: word)
    ensures var m, r := mode * 0x100, TrapWrites(c, mode, pc, InstAccessFault).value;
      && r[m + 0x42] == 1 && r[m + 0x43] == 0 && Value(r[m + 0x41]) == NextWord(pc)
      && forall a: CsrIndex | a - m !in {0x41, 0x42, 0x43} :: r[a] == c.value[a]
  {
    hide Value, SavedPc, TrapWrites;
    TrapRecords(c, mode, pc, InstAccessFault, 0);
    forall a: CsrIndex ensures a - mode * 0x100 !in {0x41, 0x42, 0x43} ==>
        TrapWrites(c, mode, pc, InstAccessFault).value[a] == c.value[a]
    {
      TrapRecords(c, mode, pc, InstAccessFault, a);
    }
    SavedPcValue(pc, InstAccessFault);
  }

  /** A pc outside every range leaves cause 1 and the address of the next word before the instruction is executed
      all the same; a pc inside one leaves nothing. */
  lemma AccessFault(cfg: Config, h: Hart)
    ensures PcAllowed(cfg, h) ==> BeforeExec(cfg, h).csrs == h.csrs
    ensures !PcAllowed(cfg, h) ==>
              var m, c := h.mode * 0x100, BeforeExec(cfg, h).csrs.value;
              && c[m + 0x42] == 1 && c[m + 0x43] == 0 && Value(c[m + 0x41]) == NextWord(h.pc.pc)
              && Value(BeforeExec(cfg, h).pc.next) == Value(h.csrs.value[m + 0x05]) / 4 * 4
              && forall a: CsrIndex | a - m !in {0x41, 0x42, 0x43} :: c[a] == h.csrs.value[a]
  {
    hide Fetch, Value, TrapWrites, BaseAddress, FallThrough, ValidPc, PcAllowed, NextWord, Exits;
    PcAllowedIsValid(cfg, h);
    AccessFaultWrites(h.csrs, h.mode, h.pc.pc);
    BaseAddressValue(h.csrs.value[h.mode * 0x100 + 0x05]);
  }

  /** So does the whole round. */
  lemma AccessFaultRound(cfg: Config, h: Hart)
    requires Round(cfg, h).Ok? && !InterruptTaken(cfg, h) && !PcAllowed(cfg, h)
    ensures var m, op, c := h.mode * 0x100, Fetch(cfg, h), Round(cfg, h).hart.csrs.value;
      && (LeavesCsr(op, h.mode, m + 0x42) ==> c[m + 0x42] == 1)
      && (LeavesCsr(op, h.mode, m + 0x43) ==> c[m + 0x43] == 0)
      && (LeavesCsr(op, h.mode, m + 0x41) ==> Value(c[m + 0x41]) == NextWord(h.pc.pc))
  {
    hide Exec, Fetch, Advance, Commit, InterruptTaken, Value, LeavesCsr, PcAllowed, NextWord, TimerAsserted;
    AccessFault(cfg, h);
    AdvanceFrame(cfg, h, Fetch(cfg, h));
    QuietRound(cfg, h);
    forall a: CsrIndex | LeavesCsr(Fetch(cfg, h), h.mode, a)
      ensures Step(cfg, h).hart.csrs.value[a] == BeforeExec(cfg, h).csrs.value[a]
    {
      ExecLeavesCsr(cfg, BeforeExec(cfg, h), a);
    }
  }

  // ----- CSR instructions

  /** csrrs and csrrc with x0 as their source only read; every other form writes. */
  predicate Writing(op: Op, sys: SysKind) {
    match sys
    case Csrrw | Csrrwi | Csrrsi | Csrrci => true
    case Csrrs | Csrrc => op.rs1 != 0
    case OtherSys => false
  }

  /** The mode is too low for the CSR, or the CSR is one of the read-only ones, 0xC00 to 0xFFF, and is written. */
  predicate Denied(mode: Privilege, a: CsrIndex, writing: bool) {
    a / 0x100 % 4 > mode || (writing && a >= 0xC00)
  }

  /** Which CSR instructions trap, only read, and write. */
  lemma CsrOutcome(op: Op, sys: SysKind, mode: Privilege, a: CsrIndex)
    ensures CsrDecision(op, sys, mode, a)
         == if Denied(mode, a, Writing(op, sys)) then CsrTraps
            else if Writing(op, sys) then CsrWrites(a) else CsrOnlyReads
  {
  }

  /** An address of 4096 or more throws or traps, except in the one form that does not read: there the address is
      cut to 16 bits first. */
  lemma CsrBeyond(op: Op, sys: SysKind, mode: Privilege, a: Address)
    requires a >= 4096
    ensures var d := CsrDecision(op, sys, mode, a);
      if a / 0x100 % 4 > mode then d == CsrTraps
      else if sys != Csrrwi || op.rd != 0 then d == CsrThrows
      else if a / 0x400 % 4 == 3 then d == CsrTraps
      else if a % 0x1_0000 >= 4096 then d == CsrThrows
      else d == CsrWrites(a % 0x1_0000)
  {
  }

  /** What a CSR instruction makes of the old value of the CSR, its source register and its five-bit field. The
      clearing forms use a logical negation, so they clear everything unless the operand is zero. */
  predicate Written(sys: SysKind, prev: word, source: word, field: int, now: word) {
    match sys
    case Csrrw => now == source
    case Csrrwi => Value(now) == field
    case Csrrs => forall i | 0 <= i < 32 :: Bit(now, i) <==> Bit(prev, i) || Bit(source, i)
    case Csrrsi => forall i | 0 <= i < 32 :: Bit(now, i) <==> Bit(prev, i) || field / Pow2(i) % 2 == 1
    case Csrrc => Value(now) == if Value(source) == 0 then Value(prev) % 2 else 0
    case Csrrci => Value(now) == if field == 0 then Value(prev) % 2 else 0
    case OtherSys => false
  }

  lemma SetBitsIsOr(prev: word, mask: word)
    ensures SetBits(prev, mask) == Or2(mask, prev)
  {
  }

  lemma SetBitsValue(prev: word, mask: word, i: nat)
    ensures Bit(SetBits(prev, mask), i) <==> Bit(prev, i) || Bit(mask, i)
  {
    hide Bit, SetBits, Or2;
    SetBitsIsOr(prev, mask);
    Bitwise(mask, prev, i);
  }

  lemma LowBitKept(w: word)
    ensures Odd(w) ==> w & 1 == 1
    ensures !Odd(w) ==> w & 1 == 0
    ensures w & 0 == 0
  {
  }

  lemma ClearBitsValue(prev: word, mask: word)
    ensures Value(ClearBits(prev, mask)) == if Value(mask) == 0 then Value(prev) % 2 else 0
  {
    hide Value, Odd;
    ZeroValue(mask);
    Halves(prev);
    LowBitKept(prev);
    OneValue();
  }

  lemma ZimmValue(op: Op)
    ensures Value(Zimm(op)) == op.rs1
  {
    ValueOfU32(op.rs1);
  }

  lemma OperandWritten(op: Op, x: RegFile, sys: SysKind, prev: word)
    requires Writing(op, sys)
    ensures Written(sys, prev, x[op.rs1], op.rs1, CsrOperand(op, x, sys, prev))
  {
    hide Value, SetBits, ClearBits, Zimm;
    ZimmValue(op);
    var mask := if sys == Csrrs then x[op.rs1] else Zimm(op);
    forall i | 0 <= i < 32 ensures Bit(SetBits(prev, mask), i) <==> Bit(prev, i) || Bit(mask, i) {
      SetBitsValue(prev, mask, i);
    }
    ClearBitsValue(prev, x[op.rs1]);
    ClearBitsValue(prev, Zimm(op));
  }

  /** The CSR instruction op, executed when the CSRs hold c, leaves the CSRs r and the registers y: rd receives the
      old value, and the CSR the new one. */
  predicate CsrDone(op: Op, a: CsrIndex, c: CsrFile, x: RegFile, r: CsrFile, y: RegFile)
    requires op.opt.SysType?
  {
    && y == (if op.rd == 0 then x else x[op.rd := c[a]])
    && if Writing(op, op.opt.sys) then Written(op.opt.sys, c[a], x[op.rs1], op.rs1, r[a]) else r[a] == c[a]
  }

  /** The form that does not read the CSR does not use its value either. */
  lemma OldValueRead(op: Op, c: CsrFile, x: RegFile, sys: SysKind, a: CsrIndex)
    requires Value(op.imm) == a
    ensures var prev := CsrOldValue(op, c, sys);
      CsrOperand(op, x, sys, prev) == CsrOperand(op, x, sys, c[a]) && (op.rd != 0 ==> prev == c[a])
      && (sys != Csrrwi ==> prev == c[a])
  {
    hide SetBits, ClearBits, Zimm, Value;
  }

  lemma ExecCsrDone(cfg: Config, h: Hart, a: CsrIndex)
    requires h.dec.tgt.CsrTarget? && h.dec.opt.SysType? && Value(h.dec.imm) == a
    requires !Denied(h.mode, a, Writing(h.dec, h.dec.opt.sys))
    ensures Exec(cfg, h).Ok?
    ensures var r := Exec(cfg, h).hart;
      && CsrDone(h.dec, a, h.csrs.value, h.gprs.x, r.csrs.value, r.gprs.x) && r.mode == h.mode && r.pc == h.pc
      && forall b: CsrIndex | b != a :: r.csrs.value[b] == h.csrs.value[b]
  {
    hide CsrDecision, CsrOperand, Value, Denied, Writing, Written;
    CsrOutcome(h.dec, h.dec.opt.sys, h.mode, a);
    if Writing(h.dec, h.dec.opt.sys) {
      OperandWritten(h.dec, h.gprs.x, h.dec.opt.sys, h.csrs.value[a]);
    }
    OldValueRead(h.dec, h.csrs.value, h.gprs.x, h.dec.opt.sys, a);
  }

  /** A CSR instruction that is not denied leaves in rd what the CSR held, and in the CSR what its form says of the
      old value and the operand; one that is denied is illegal. */
  lemma CsrStep(cfg: Config, h: Hart, a: CsrIndex)
    requires var op := Fetch(cfg, h); op.tgt.CsrTarget? && op.opt.SysType? && Value(op.imm) == a
    ensures var op, b := Fetch(cfg, h), BeforeExec(cfg, h);
      if Denied(h.mode, a, Writing(op, op.opt.sys)) then Step(cfg, h) == Ok(Exception(cfg, b, InstIllegal))
      else
        && Step(cfg, h).Ok?
        && var r := Step(cfg, h).hart;
        && CsrDone(op, a, b.csrs.value, h.gprs.x, r.csrs.value, r.gprs.x) && r.mode == h.mode && r.pc == b.pc
        && forall other: CsrIndex | other != a :: r.csrs.value[other] == b.csrs.value[other]
  {
    hide Advance, Exec, Fetch, Denied, Writing, CsrDone, Value, Exception;
    var op, b := Fetch(cfg, h), BeforeExec(cfg, h);
    AdvanceFrame(cfg, h, op);
    if Denied(h.mode, a, Writing(op, op.opt.sys)) {
      ExecCsrDenied(cfg, b, a);
    } else {
      ExecCsrDone(cfg, b, a);
    }
  }

  lemma ExecCsrDenied(cfg: Config, h: Hart, a: CsrIndex)
    requires h.dec.tgt.CsrTarget? && h.dec.opt.SysType? && Value(h.dec.imm) == a
    requires Denied(h.mode, a, Writing(h.dec, h.dec.opt.sys))
    ensures Exec(cfg, h) == Ok(Exception(cfg, h, InstIllegal))
  {
    hide CsrDecision, CsrOperand, CsrOldValue, Value, Denied, Writing, Exception;
    CsrOutcome(h.dec, h.dec.opt.sys, h.mode, a);
  }

  /** So does the whole round at an allowed pc; a denied instruction leaves cause 2. The bit an asserted timer
      raises in mip comes on top: see QuietRound. */
  lemma CsrRound(cfg: Config, h: Hart, a: CsrIndex)
    requires var op := Fetch(cfg, h); op.tgt.CsrTarget? && op.opt.SysType? && Value(op.imm) == a
    requires PcAllowed(cfg, h) && !InterruptTaken(cfg, h)
    ensures Round(cfg, h).Ok?
    ensures var op, r := Fetch(cfg, h), Round(cfg, h).hart;
      if Denied(h.mode, a, Writing(op, op.opt.sys)) then TrapsWith(h, r, 2, NextWord(h.pc.pc))
      else
        && (a != 0x344 ==> CsrDone(op, a, h.csrs.value, h.gprs.x, r.csrs.value, r.gprs.x))
        && (forall b: CsrIndex | b != a && b != 0x344 :: r.csrs.value[b] == h.csrs.value[b])
        && Value(r.pc.pc) == (Value(h.pc.pc) + if op.isCompressed then 2 else 4) % 0x1_0000_0000
        && r.mode == h.mode
  {
    hide Advance, Exec, Fetch, Denied, Writing, Value, Exception, InterruptTaken, Commit, Written, TrapsWith,
      PcAllowed, SavedPc, TimerAsserted, Step;
    CsrStep(cfg, h, a);
    AccessFault(cfg, h);
    QuietRound(cfg, h);
    if Denied(h.mode, a, Writing(Fetch(cfg, h), Fetch(cfg, h).opt.sys)) {
      ExceptionRound(cfg, h, InstIllegal);
      SavedPcValue(h.pc.pc, InstIllegal);
    } else {
      NextPcValue(cfg, h);
    }
  }

  /** Before the instruction is executed, the next pc is the one after it. */
  lemma NextPcValue(cfg: Config, h: Hart)
    requires PcAllowed(cfg, h)
    ensures Value(BeforeExec(cfg, h).pc.next)
         == (Value(h.pc.pc) + if Fetch(cfg, h).isCompressed then 2 else 4) % 0x1_0000_0000
  {
    hide Fetch, Value, ValidPc, PcAllowed, Forward;
    PcAllowedIsValid(cfg, h);
    ForwardValue(h.pc.pc, Length(Fetch(cfg, h)));
    FourValue();
  }

  // ----- branches and the length of an instruction

  /** Whether a branch is taken, told from the registers as numbers: equality and order, signed and unsigned. */
  predicate Taken(kind: BranchKind, a: word, b: word) {
    match kind
    case Beq => Value(a) == Value(b)
    case Bne => Value(a) != Value(b)
    case Blt => Signed(a) < Signed(b)
    case Bltu => Value(a) < Value(b)
    case Bge => Signed(a) >= Signed(b)
    case Bgeu => Value(a) >= Value(b)
  }

  lemma NotBelow(a: word, b: word)
    ensures a >= b <==> !Below(a, b)
  {
  }

  /** Every branch condition compares the numbers. */
  lemma BranchConditions(kind: BranchKind, a: word, b: word)
    ensures ShouldBranch(a, b, kind) <==> Taken(kind, a, b)
  {
    hide Value, Signed;
    Distinct(a, b);
    BelowOnValues(a, b);
    NotBelow(a, b);
    assert Below(a, b) == (a < b);
  }

  /** Equality is the absence of order, on both readings, and each condition has its complement. */
  lemma EqualIsUnordered(a: word, b: word)
    ensures ShouldBranch(a, b, Beq) <==> !ShouldBranch(a, b, Blt) && !ShouldBranch(b, a, Blt)
    ensures ShouldBranch(a, b, Beq) <==> !ShouldBranch(a, b, Bltu) && !ShouldBranch(b, a, Bltu)
    ensures ShouldBranch(a, b, Bne) <==> !ShouldBranch(a, b, Beq)
    ensures ShouldBranch(a, b, Bge) <==> !ShouldBranch(a, b, Blt)
    ensures ShouldBranch(a, b, Bgeu) <==> !ShouldBranch(a, b, Bltu)
  {
    hide ShouldBranch, Value;
    forall kind ensures ShouldBranch(a, b, kind) <==> Taken(kind, a, b) {
      BranchConditions(kind, a, b);
    }
    forall kind ensures ShouldBranch(b, a, kind) <==> Taken(kind, b, a) {
      BranchConditions(kind, b, a);
    }
  }

  lemma ExecBranchPc(cfg: Config, h: Hart)
    requires h.dec.tgt.BranchTarget? && h.dec.opt.BranchType?
    ensures Exec(cfg, h).Ok?
    ensures var r, kind := Exec(cfg, h).hart, h.dec.opt.branch;
      && r == h.(pc := r.pc)
      && (Taken(kind, h.gprs.x[h.dec.rs1], h.gprs.x[h.dec.rs2]) ==>
            Value(r.pc.next) == (Value(h.pc.pc) + Value(h.dec.imm)) % 0x1_0000_0000)
      && (!Taken(kind, h.gprs.x[h.dec.rs1], h.gprs.x[h.dec.rs2]) ==> r.pc.next == h.pc.next)
  {
    hide ShouldBranch, Taken, Value, Forward;
    BranchConditions(h.dec.opt.branch, h.gprs.x[h.dec.rs1], h.gprs.x[h.dec.rs2]);
    ForwardValue(h.dec.imm, h.pc.pc);
  }

  /** A branch round goes to the pc plus the offset when its condition holds and to the next instruction otherwise,
      and leaves the registers and the memory alone. */
  lemma BranchRound(cfg: Config, h: Hart)
    requires Fetch(cfg, h).tgt.BranchTarget? && Fetch(cfg, h).opt.BranchType?
    requires PcAllowed(cfg, h) && !InterruptTaken(cfg, h)
    ensures Round(cfg, h).Ok?
    ensures var op, r := Fetch(cfg, h), Round(cfg, h).hart;
      && Value(r.pc.pc) == (Value(h.pc.pc) +
             if Taken(op.opt.branch, h.gprs.x[op.rs1], h.gprs.x[op.rs2]) then Value(op.imm)
             else if op.isCompressed then 2 else 4) % 0x1_0000_0000
      && r.gprs.x == h.gprs.x && r.mem == h.mem && r.mode == h.mode
  {
    hide Advance, Exec, Fetch, Value, InterruptTaken, Commit, Taken, PcAllowed, TimerAsserted;
    AdvanceFrame(cfg, h, Fetch(cfg, h));
    ExecBranchPc(cfg, BeforeExec(cfg, h));
    NextPcValue(cfg, h);
    QuietRound(cfg, h);
  }

  lemma LengthBits(w: word)
    ensures w & 3 == 3 <==> Odd(w) && Odd(Half(w))
  {
  }

  /** A word whose value is 3 modulo 4 is an instruction of four bytes; any other is compressed. */
  lemma FetchByLength(cfg: Config, h: Hart)
    ensures var w := LoadWord(h.mem.pages, Value(h.pc.pc));
      Fetch(cfg, h) == if Value(w) % 4 == 3 then cfg.decode(w) else cfg.decode16(w)
  {
    hide LoadWord, Value, Odd, Half;
    var w := LoadWord(h.mem.pages, Value(h.pc.pc));
    LengthBits(w);
    Halves(w);
    Halves(Half(w));
  }

  // ----- the interrupt

  lemma PushEnables(s: word)
    ensures PushStatus(s) & 0x8 == 0
    ensures PushStatus(s) & 0x80 == (s & 0x8) << 4
  {
  }

  lemma PushMode(s: word)
    ensures PushStatus(s) & 0x1800 == 0x1800
  {
  }

  lemma PushOthers(s: word)
    ensures PushStatus(s) & 0xFFFF_E777 == s & 0xFFFF_E777
  {
  }

  lemma PopEnables(s: word)
    ensures PopStatus(s) & 0x80 == 0x80
    ensures PopStatus(s) & 0x8 == (s & 0x80) >> 4
  {
  }

  lemma PopMode(s: word)
    ensures PopStatus(s) & 0x1800 == 0x1800
  {
  }

  lemma PopOthers(s: word)
    ensures PopStatus(s) & 0xFFFF_E777 == s & 0xFFFF_E777
  {
  }

  /** MIE is bit 3 of mstatus, MPIE bit 7, MPP bits 11 and 12: an interrupt moves MIE to MPIE, clears it, and sets
      MPP to machine. No other bit changes. */
  predicate Pushed(s: word, r: word) {
    && r & 0x8 == 0 && r & 0x80 == (s & 0x8) << 4 && r & 0x1800 == 0x1800 && r & 0xFFFF_E777 == s & 0xFFFF_E777
  }

  /** mret moves MPIE back to MIE, sets it, and leaves MPP at machine. */
  predicate Popped(s: word, r: word) {
    && r & 0x80 == 0x80 && r & 0x8 == (s & 0x80) >> 4 && r & 0x1800 == 0x1800 && r & 0xFFFF_E777 == s & 0xFFFF_E777
  }

  lemma PushIsPushed(s: word)
    ensures Pushed(s, PushStatus(s))
  {
    hide PushStatus;
    PushEnables(s);
    PushMode(s);
    PushOthers(s);
  }

  lemma PopIsPopped(s: word)
    ensures Popped(s, PopStatus(s))
  {
    hide PopStatus;
    PopEnables(s);
    PopMode(s);
    PopOthers(s);
  }

  lemma PreviousIsMpp(s: word)
    ensures PreviousPrivilege(s) == 0 <==> s & 0x1800 == 0
    ensures PreviousPrivilege(s) == 1 <==> s & 0x1800 == 0x800
    ensures PreviousPrivilege(s) == 2 <==> s & 0x1800 == 0x1000
    ensures PreviousPrivilege(s) == 3 <==> s & 0x1800 == 0x1800
  {
  }

  /** The 64-bit value of the eight bytes at a. */
  function DwordAt(pages: Flat, a: Address): int {
    Value(LoadWord(pages, Plus(a, 4))) * 0x1_0000_0000 + Value(LoadWord(pages, a))
  }

  function Joined(hi: word, lo: word): dword { (lo as dword) | ((hi as dword) << 32) }

  lemma HighWordExceeds(hi: word, lo: word, hi': word, lo': word)
    requires Below(hi', hi)
    ensures Exceeds(Joined(hi, lo), Joined(hi', lo'))
  {
  }

  lemma LowWordExceeds(hi: word, lo: word, lo': word)
    requires Below(lo', lo)
    ensures Exceeds(Joined(hi, lo), Joined(hi, lo'))
  {
  }

  lemma JoinedExceeds(hi: word, lo: word, hi': word, lo': word)
    requires Below(hi', hi) || (hi == hi' && Below(lo', lo))
    ensures Exceeds(Joined(hi, lo), Joined(hi', lo'))
  {
    hide Below, Joined, Exceeds;
    if Below(hi', hi) {
      HighWordExceeds(hi, lo, hi', lo');
    } else {
      LowWordExceeds(hi, lo, lo');
    }
  }

  lemma NotBothWays(m: dword, n: dword)
    requires Exceeds(m, n)
    ensures !Exceeds(n, m) && m != n
  {
  }

  lemma ExceedsOnValues(m: Flat, a: Address, b: Address)
    ensures Exceeds(LoadDword(m, a), LoadDword(m, b)) <==> DwordAt(m, a) > DwordAt(m, b)
  {
    hide Exceeds, LoadWord, Value, Joined, Below;
    var hi, lo, hi', lo' := LoadWord(m, Plus(a, 4)), LoadWord(m, a), LoadWord(m, Plus(b, 4)), LoadWord(m, b);
    BelowOnValues(hi, hi');
    BelowOnValues(lo, lo');
    BelowOnValues(hi', hi);
    BelowOnValues(lo', lo);
    Distinct(hi, hi');
    Distinct(lo, lo');
    LoadIsJoined(m, a);
    LoadIsJoined(m, b);
    if DwordAt(m, a) > DwordAt(m, b) {
      JoinedExceeds(hi, lo, hi', lo');
    } else if DwordAt(m, a) < DwordAt(m, b) {
      JoinedExceeds(hi', lo', hi, lo);
      NotBothWays(Joined(hi', lo'), Joined(hi, lo));
    } else {
      NeverAboveItself(Joined(hi, lo));
    }
  }

  lemma NeverAboveItself(m: dword)
    ensures !Exceeds(m, m)
  {
  }

  lemma LoadIsJoined(m: Flat, a: Address)
    ensures LoadDword(m, a) == Joined(LoadWord(m, Plus(a, 4)), LoadWord(m, a))
  {
    hide LoadWord;
  }

  lemma ClearRaised(mip: word)
    ensures Clear(Raise(mip)) == mip & 0xFFFF_FF7F
  {
  }

  /** The interrupt is asserted exactly when it is configured and mtime is above mtimecmp. */
  lemma AssertedIff(cfg: Config, m: Routed)
    ensures TimerAsserted(cfg, m)
        <==> cfg.mtiEnabled && DwordAt(m.pages, m.mtimeAddr) > DwordAt(m.pages, m.mtimecmpAddr)
  {
    hide DwordAt, LoadDword, Exceeds;
    ExceedsOnValues(m.pages, m.mtimeAddr, m.mtimecmpAddr);
  }

  /** The interrupt is taken exactly when it is configured, mtime is above mtimecmp in the memory the step leaves,
      bit 7 of mie is on and bit 3 of mstatus is. */
  lemma InterruptIff(cfg: Config, h: Hart)
    requires Step(cfg, h).Ok?
    ensures var s := Step(cfg, h).hart;
      InterruptTaken(cfg, h) <==>
        && cfg.mtiEnabled && DwordAt(s.mem.pages, s.mem.mtimeAddr) > DwordAt(s.mem.pages, s.mem.mtimecmpAddr)
        && s.csrs.value[0x304] & 0x80 != 0 && s.csrs.value[0x300] & 0x8 != 0
  {
    hide Step, DwordAt, TimerAsserted;
    var s := Step(cfg, h).hart;
    AssertedIff(cfg, s.mem);
    RaiseSets(s.csrs.value[0x344]);
    TimerBit(Raise(s.csrs.value[0x344]));
  }

  lemma TimerBit(mip: word)
    requires mip & 0x80 == 0x80
    ensures mip & TIMER_BIT != 0
  {
  }

  /** Entry 7 of the mode's vector table, with the cause, a zero value and the pc in the mode's registers. */
  predicate Vectored(s: Hart, r: Hart) {
    var m, c := s.mode * 0x100, r.csrs.value;
    && Value(r.pc.pc) == (Value(s.csrs.value[m + 0x05]) / 4 * 4 + 28) % 0x1_0000_0000 && r.pc.next == r.pc.pc
    && c[m + 0x42] == 0x8000_0007 && c[m + 0x43] == 0 && Value(c[m + 0x41]) == NextWord(s.pc.next)
  }

  lemma CommitVectors(cfg: Config, s: Hart)
    requires TakenAfter(cfg, s)
    ensures Vectored(s, Commit(cfg, s))
  {
    hide TakenAfter, BaseAddress, SavedPc, Forward, Value, Commit;
    InterruptEntry(cfg, s);
    SavedPcValue(s.pc.next, TimerM);
    BaseAddressValue(s.csrs.value[s.mode * 0x100 + 0x05]);
    ForwardValue(BaseAddress(s.csrs.value[s.mode * 0x100 + 0x05]), 28);
    FourValue();
  }

  /** The status is pushed, the pending bit gone, and nothing else has changed. */
  predicate StatusMoved(s: Hart, r: Hart) {
    var m, before, after := s.mode * 0x100, s.csrs.value, r.csrs.value;
    && Pushed(before[0x300], after[0x300]) && after[0x344] == before[0x344] & 0xFFFF_FF7F
    && (forall a: CsrIndex | a - m !in {0x41, 0x42, 0x43} && a !in {0x300, 0x344} :: after[a] == before[a])
    && r.mode == s.mode && r.gprs.x == s.gprs.x && r.mem == s.mem
  }

  lemma CommitMovesStatus(cfg: Config, s: Hart)
    requires TakenAfter(cfg, s)
    ensures StatusMoved(s, Commit(cfg, s))
  {
    hide TimerAsserted, TakesTimer, Raise, Clear, PushStatus, Pushed, Commit, TimerWrites;
    CommitFrame(cfg, s);
    TimerWritesStatus(SetPending(s.csrs), s.mode, s.pc.next);
    PushIsPushed(s.csrs.value[0x300]);
    ClearRaised(s.csrs.value[0x344]);
    forall a: CsrIndex | a - s.mode * 0x100 !in {0x41, 0x42, 0x43} && a !in {0x300, 0x344}
      ensures TimerWrites(SetPending(s.csrs), s.mode, s.pc.next).value[a] == s.csrs.value[a]
    {
      TimerWritesOthers(SetPending(s.csrs), s.mode, s.pc.next, a);
    }
  }

  /** What a round that takes the interrupt makes of what its step left. */
  lemma InterruptRound(cfg: Config, h: Hart)
    requires InterruptTaken(cfg, h)
    ensures Round(cfg, h).Ok?
    ensures Vectored(Step(cfg, h).hart, Round(cfg, h).hart) && StatusMoved(Step(cfg, h).hart, Round(cfg, h).hart)
  {
    hide Step, TakenAfter, Commit, Vectored, StatusMoved;
    CommitVectors(cfg, Step(cfg, h).hart);
    CommitMovesStatus(cfg, Step(cfg, h).hart);
  }

  lemma TimerWritesOthers(c: Csrs, mode: Privilege, pc: word, a: CsrIndex)
    requires a - mode * 0x100 !in {0x41, 0x42, 0x43} && a !in {0x300, 0x344}
    ensures TimerWrites(c, mode, pc).value[a] == c.value[a]
  {
    hide TrapWrites;
    var written := WriteCsr(WriteCsr(c, MIP, Clear(c.value[MIP])), MSTATUS, PushStatus(c.value[MSTATUS]));
    TrapRecords(written, mode, pc, TimerM, a);
  }

  /** An mret round goes to mepc, in the mode MPP names, with the status popped. */
  lemma MretPops(cfg: Config, h: Hart)
    requires Fetch(cfg, h).tgt.Mret? && PcAllowed(cfg, h) && !InterruptTaken(cfg, h)
    ensures Round(cfg, h).Ok?
    ensures var r, s := Round(cfg, h).hart, h.csrs.value[0x300];
      && r.pc.pc == h.csrs.value[0x341] && Popped(s, r.csrs.value[0x300]) && r.gprs.x == h.gprs.x
      && r.mode == if s & 0x1800 == 0 then 0 else if s & 0x1800 == 0x800 then 1 else if s & 0x1800 == 0x1000 then 2
          else 3
  {
    hide Step, Round, Fetch, PopStatus, PreviousPrivilege, Popped, PcAllowed, ValidPc, InterruptTaken, TimerAsserted;
    PcAllowedIsValid(cfg, h);
    MretStep(cfg, h);
    QuietRound(cfg, h);
    PopIsPopped(h.csrs.value[0x300]);
    PreviousIsMpp(h.csrs.value[0x300]);
    MretKeepsRegisters(cfg, h);
  }

  lemma MretKeepsRegisters(cfg: Config, h: Hart)
    requires Fetch(cfg, h).tgt.Mret?
    ensures Step(cfg, h).Ok? && Step(cfg, h).hart.gprs.x == h.gprs.x
  {
    hide Fetch, Advance, PopStatus, PreviousPrivilege;
    AdvanceFrame(cfg, h, Fetch(cfg, h));
  }

  /** A tick adds one, modulo 256, to the byte a program reads at mtime, if the window holds any, and changes no other
      byte and nothing else. */
  lemma TickIsOneByte(h: Hart)
    ensures var m, m' := h.mem, Tick(h).mem;
      && (m.mtimeAddr + 8 < 0x1_0000_0000 ==>
            RoutedByte(m', m.mtimeAddr) as int == (RoutedByte(m, m.mtimeAddr) as int + 1) % 0x100)
      && (forall a: Address | a != m.mtimeAddr :: RoutedByte(m', a) == RoutedByte(m, a))
      && m'.(mtime := m.mtime) == m && Tick(h).(mem := m) == h
  {
    WindowIsEightBytes(h.mem.mtimeAddr, h.mem.mtimeAddr);
    ByteSuccessor(h.mem.mtime[0]);
  }

  lemma ByteSuccessor(b: byte)
    ensures (b + 1) as int == (b as int + 1) % 0x100
  {
  }
}
