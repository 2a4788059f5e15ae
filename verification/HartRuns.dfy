/** Properties of whole runs of the hart, for every decoder. */
module HartRuns {
  import opened FlatMemory
  import opened HartSpec

  /** A run: rounds of step and commit, with ticks of the timer thread in between. A tick inside a round is one at
      its edge: see RoundAbsorbsTicks in HartTicks. */
  ghost predicate Run(cfg: Config, tr: seq<Hart>) {
    tr != [] && forall i | 0 < i < |tr| :: Next(cfg, tr[i - 1], tr[i])
  }

  // ----- what one operation may change

  /** A CSR that neither the standard's read-only rule nor the privilege rule lets this mode write. */
  predicate Protected(mode: Privilege, a: CsrIndex) {
    (ReadOnly(a) || Priv(a) > mode) && a != MSTATUS && a != MIP
  }

  lemma TrapWritesConfined(c: Csrs, mode: Privilege, pc: word, cause: TrapCause, a: CsrIndex)
    requires Protected(mode, a) || a == MSTATUS || a == MIP
    ensures TrapWrites(c, mode, pc, cause).value[a] == c.value[a]
  {
  }

  /** An exception leaves its cause, a zero value and the saved pc in the CSRs of the current mode, and changes no
      other. */
  lemma TrapRecords(c: Csrs, mode: Privilege, pc: word, cause: TrapCause, a: CsrIndex)
    ensures var r := TrapWrites(c, mode, pc, cause).value;
      && r[mode * 0x100 + 0x42] == Code(cause) && r[mode * 0x100 + 0x43] == 0
          && r[mode * 0x100 + 0x41] == SavedPc(pc, cause)
      && (a - mode * 0x100 !in {0x41, 0x42, 0x43} ==> r[a] == c.value[a])
  {
    hide Code, SavedPc;
  }

  lemma ExceptionFrame(cfg: Config, h: Hart, cause: TrapCause)
    ensures var r := Exception(cfg, h, cause);
            && r.mode == h.mode && r.gprs == h.gprs && r.pc.pc == h.pc.pc && r.dec == h.dec
            && r.csrs == TrapWrites(h.csrs, h.mode, h.pc.pc, cause)
            && r.pc.next == TrapEntry(h.csrs.value, h.mode)
  {
  }

  lemma ExecMode(cfg: Config, h: Hart)
    requires Exec(cfg, h).Ok?
    ensures var r := Exec(cfg, h).hart;
      && r.dec == h.dec && r.pc.pc == h.pc.pc
      && (r.mode == if h.dec.tgt.Mret? then PreviousPrivilege(h.csrs.value[MSTATUS]) else h.mode)
  {
  }

  lemma CsrDecisionConfined(op: Op, sys: SysKind, mode: Privilege, addr: Address)
    ensures var d := CsrDecision(op, sys, mode, addr);
      d.CsrWrites? ==> CanWrite(mode, d.index) && d.index == addr % 0x1_0000
  {
    TruncatedIndex(addr);
  }

  /** Truncating an address to 16 bits keeps its access bits. */
  lemma TruncatedIndex(addr: Address)
    ensures Priv(addr % 0x1_0000) == Priv(addr) && ReadOnly(addr % 0x1_0000) == ReadOnly(addr)
  {
    var q, r := addr / 0x1_0000, addr % 0x1_0000;
    assert addr / 0x100 == q * 0x100 + r / 0x100;
    assert addr / 0x400 == q * 0x40 + r / 0x400;
    MultipleOfFour(q * 0x40, r / 0x100);
    MultipleOfFour(q * 0x10, r / 0x400);
  }

  lemma MultipleOfFour(k: int, r: int)
    ensures (k * 4 + r) % 4 == r % 4
  {
  }

  lemma CsrInstructionFrame(cfg: Config, h: Hart)
    requires ExecCsr(cfg, h).Ok?
    ensures var r, d := ExecCsr(cfg, h).hart, CsrDecision(h.dec, h.dec.opt.sys, h.mode, At(h.dec.imm));
      match d
      case CsrThrows => false
      case CsrTraps => r.csrs == TrapWrites(h.csrs, h.mode, h.pc.pc, InstIllegal)
      case CsrOnlyReads => r.csrs == h.csrs
      case CsrWrites(index) => CanWrite(h.mode, index) && exists v :: r.csrs == WriteCsr(h.csrs, index, v)
  {
    ExceptionFrame(cfg, h, InstIllegal);
    CsrDecisionConfined(h.dec, h.dec.opt.sys, h.mode, At(h.dec.imm));
  }

  lemma ExecConfined(cfg: Config, h: Hart, a: CsrIndex)
    requires Exec(cfg, h).Ok? && Protected(h.mode, a)
    ensures Exec(cfg, h).hart.csrs.value[a] == h.csrs.value[a]
  {
    forall cause ensures TrapWrites(h.csrs, h.mode, h.pc.pc, cause).value[a] == h.csrs.value[a] {
      TrapWritesConfined(h.csrs, h.mode, h.pc.pc, cause, a);
    }
    match h.dec.tgt {
      case CsrTarget => CsrInstructionFrame(cfg, h);
      case Ecall => ExceptionFrame(cfg, h, EcallCause(h.mode));
      case Illegal => ExceptionFrame(cfg, h, InstIllegal);
      case Ebreak => ExceptionFrame(cfg, h, Breakpoint);
      case Mret =>
      case StoreTarget =>
      case AluTarget =>
      case LoadTarget =>
      case BranchTarget =>
    }
  }

  lemma AdvanceFrame(cfg: Config, h: Hart, op: Op)
    ensures var b := Advance(cfg, h, op);
      && b.mode == h.mode && b.gprs == h.gprs && b.pc.pc == h.pc.pc && b.dec == op && b.mem == h.mem && b.done == h.done
      && b.csrs == (if ValidPc(cfg, h.pc.pc) then h.csrs else TrapWrites(h.csrs, h.mode, h.pc.pc, InstAccessFault))
  {
  }

  lemma AdvanceKeeps(cfg: Config, h: Hart, op: Op)
    ensures var b := Advance(cfg, h, op);
      b.mode == h.mode && b.gprs == h.gprs && b.pc.pc == h.pc.pc && b.dec == op && b.mem == h.mem && b.done == h.done
  {
    AdvanceFrame(cfg, h, op);
  }

  lemma CommitKeeps(cfg: Config, s: Hart)
    ensures var r := Commit(cfg, s);
      r.mode == s.mode && r.gprs.x == s.gprs.x && r.dec == s.dec && r.mem == s.mem && r.done == s.done
  {
    hide TimerAsserted, TimerWrites, TakesTimer, SetPending;
  }

  /** The timer interrupt is asserted and taken at the end of the round whose step left s. */
  predicate TakenAfter(cfg: Config, s: Hart) {
    TimerAsserted(cfg, s.mem) && TakesTimer(SetPending(s.csrs).value)
  }

  lemma CommitFrame(cfg: Config, s: Hart)
    ensures var r := Commit(cfg, s);
      && r.mode == s.mode && r.gprs == Gprs(s.gprs.x, []) && r.dec == s.dec && r.mem == s.mem && r.done == s.done
      && r.csrs.staged == []
      && r.csrs.value == (if !TimerAsserted(cfg, s.mem) then s.csrs.value
                          else if !TakenAfter(cfg, s) then SetPending(s.csrs).value
                          else TimerWrites(SetPending(s.csrs), s.mode, s.pc.next).value)
  {
  }

  lemma TimerWritesConfined(c: Csrs, mode: Privilege, pc: word, a: CsrIndex)
    requires Protected(mode, a)
    ensures TimerWrites(c, mode, pc).value[a] == c.value[a]
  {
    TrapAfterTwoWrites(c, mode, pc, Clear(c.value[MIP]), PushStatus(c.value[MSTATUS]), a);
  }

  lemma TrapAfterTwoWrites(c: Csrs, mode: Privilege, pc: word, mip: word, mstatus: word, a: CsrIndex)
    requires Protected(mode, a) || a == MSTATUS || a == MIP
    ensures var r := TrapWrites(WriteCsr(WriteCsr(c, MIP, mip), MSTATUS, mstatus), mode, pc, TimerM).value;
      && (a == MSTATUS ==> r[a] == mstatus)
      && (a == MIP ==> r[a] == mip)
      && (a != MSTATUS && a != MIP ==> r[a] == c.value[a])
  {
    TrapWritesConfined(WriteCsr(WriteCsr(c, MIP, mip), MSTATUS, mstatus), mode, pc, TimerM, a);
  }

  // ----- privilege confinement

  lemma RoundConfined(cfg: Config, h: Hart, a: CsrIndex)
    requires Round(cfg, h).Ok?
    requires Protected(h.mode, a) && Protected(Round(cfg, h).hart.mode, a)
    ensures Round(cfg, h).hart.csrs.value[a] == h.csrs.value[a]
  {
    var b, s := BeforeExec(cfg, h), Step(cfg, h).hart;
    AdvanceFrame(cfg, h, Fetch(cfg, h));
    TrapWritesConfined(h.csrs, h.mode, h.pc.pc, InstAccessFault, a);
    ExecConfined(cfg, b, a);
    CommitFrame(cfg, s);
    TimerWritesConfined(SetPending(s.csrs), s.mode, s.pc.next, a);
  }

  /** While the mode stays at or below m, no CSR that needs more than m changes, save mstatus and mip. */
  lemma {:induction false} PrivilegeConfinement(cfg: Config, tr: seq<Hart>, k: nat, m: Privilege, a: CsrIndex)
    requires Run(cfg, tr) && k < |tr|
    requires forall i | 0 <= i <= k :: tr[i].mode <= m
    requires a / 0x100 % 4 > m && a != 0x300 && a != 0x344
    ensures tr[k].csrs.value[a] == tr[0].csrs.value[a]
  {
    if k > 0 {
      PrivilegeConfinement(cfg, tr, k - 1, m, a);
      NextConfined(cfg, tr[k - 1], tr[k], a);
    }
  }

  /** A CSR whose address marks it read-only, 0xC00 to 0xFFF, never changes, in any mode. */
  lemma {:induction false} ReadOnlyNeverChanges(cfg: Config, tr: seq<Hart>, k: nat, a: CsrIndex)
    requires Run(cfg, tr) && k < |tr| && a >= 0xC00
    ensures tr[k].csrs.value[a] == tr[0].csrs.value[a]
  {
    if k > 0 {
      ReadOnlyNeverChanges(cfg, tr, k - 1, a);
      NextConfined(cfg, tr[k - 1], tr[k], a);
    }
  }

  lemma NextConfined(cfg: Config, h: Hart, h': Hart, a: CsrIndex)
    requires Next(cfg, h, h') && Protected(h.mode, a) && Protected(h'.mode, a)
    ensures h'.csrs.value[a] == h.csrs.value[a]
  {
    if Round(cfg, h) == Ok(h') {
      RoundConfined(cfg, h, a);
    }
  }

  /** The mode changes in mret only, and then to the privilege mstatus holds. */
  lemma ModeChangesOnlyInMret(cfg: Config, h: Hart, h': Hart)
    requires Next(cfg, h, h')
    ensures h'.mode != h.mode ==>
              && Round(cfg, h) == Ok(h') && Fetch(cfg, h).tgt.Mret?
              && h'.mode == PreviousPrivilege(h.csrs.value[MSTATUS])
  {
    if Round(cfg, h) == Ok(h') {
      AdvanceFrame(cfg, h, Fetch(cfg, h));
      TrapWritesConfined(h.csrs, h.mode, h.pc.pc, InstAccessFault, MSTATUS);
      ExecMode(cfg, BeforeExec(cfg, h));
      CommitFrame(cfg, Step(cfg, h).hart);
    }
  }
}
