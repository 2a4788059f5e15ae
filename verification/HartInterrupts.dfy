/** The machine timer interrupt over runs: the interrupt-enable stack, pending interrupts, and the return by mret. */
module HartInterrupts {
  import opened FlatMemory
  import opened HartSpec
  import opened HartRuns
  import opened HartLogs

  // ----- the bits of mstatus and mip

  predicate Enabled(mstatus: word) { mstatus & STATUS_MIE != 0 }
  predicate Pending(mip: word) { mip & TIMER_BIT != 0 }

  /** mstatus without MIE, MPIE and MPP. */
  function OutsideStack(mstatus: word): word { mstatus & 0xFFFF_E777 }

  lemma PushBits(s: word)
    ensures OutsideStack(PushStatus(s)) == OutsideStack(s)
    ensures !Enabled(PushStatus(s))
    ensures PreviousPrivilege(PushStatus(s)) == MACHINE
  {
    PushMpp(s);
  }

  lemma PushMpp(s: word)
    ensures PushStatus(s) & 0x1000 != 0 && PushStatus(s) & 0x800 != 0
  {
  }

  lemma PopBits(s: word)
    ensures OutsideStack(PopStatus(s)) == OutsideStack(s)
  {
  }

  /** Leaving the handler restores the enable bit the interrupt saved. */
  lemma PopPush(s: word)
    requires Enabled(s)
    ensures PopStatus(PushStatus(s)) == s | STATUS_MPIE | STATUS_MPP
    ensures Enabled(PopStatus(PushStatus(s)))
  {
  }

  lemma PendingBits(v: word)
    ensures Pending(Raise(v)) && !Pending(Clear(v))
  {
  }

  // ----- what a round writes

  predicate ExecutesMret(cfg: Config, h: Hart) { Fetch(cfg, h).tgt.Mret? }

  /** The round executes a CSR instruction that writes CSR a. */
  predicate InstructionWrites(cfg: Config, h: Hart, a: CsrIndex) {
    var op := Fetch(cfg, h);
    op.tgt.CsrTarget? && op.opt.SysType? && CsrDecision(op, op.opt.sys, h.mode, At(op.imm)) == CsrWrites(a)
  }

  /** A timer interrupt is taken at the end of the round from h. */
  predicate InterruptTaken(cfg: Config, h: Hart) {
    Step(cfg, h).Ok? && TakenAfter(cfg, Step(cfg, h).hart)
  }

  lemma ExecKeeps(cfg: Config, h: Hart, a: CsrIndex)
    requires Exec(cfg, h).Ok? && (a == MSTATUS || a == MIP)
    requires !(a == MSTATUS && h.dec.tgt.Mret?)
    requires !(h.dec.tgt.CsrTarget? && h.dec.opt.SysType?
        && CsrDecision(h.dec, h.dec.opt.sys, h.mode, At(h.dec.imm)) == CsrWrites(a))
    ensures Exec(cfg, h).hart.csrs.value[a] == h.csrs.value[a]
  {
    forall cause ensures TrapWrites(h.csrs, h.mode, h.pc.pc, cause).value[a] == h.csrs.value[a] {
      TrapWritesConfined(h.csrs, h.mode, h.pc.pc, cause, a);
    }
    match h.dec.tgt {
      case CsrTarget => CsrInstructionFrame(cfg, h);
      case Ecall => ExceptionFrame(cfg, h, EcallCause(h.mode));
      case Illegal => ExceptionFrame(cfg, h, InstIllegal);
      case Ebreak => ExceptionFrame(cfg, h, Breakpoint);
      case Mret =>
      case StoreTarget =>
      case AluTarget =>
      case LoadTarget =>
      case BranchTarget =>
    }
  }

  lemma StepKeeps(cfg: Config, h: Hart, a: CsrIndex)
    requires Step(cfg, h).Ok? && (a == MSTATUS || a == MIP)
    requires !(a == MSTATUS && ExecutesMret(cfg, h)) && !InstructionWrites(cfg, h, a)
    ensures Step(cfg, h).hart.csrs.value[a] == h.csrs.value[a]
  {
    AdvanceFrame(cfg, h, Fetch(cfg, h));
    TrapWritesConfined(h.csrs, h.mode, h.pc.pc, InstAccessFault, a);
    ExecKeeps(cfg, BeforeExec(cfg, h), a);
  }

  lemma TimerWritesStatus(c: Csrs, mode: Privilege, pc: word)
    ensures TimerWrites(c, mode, pc).value[MSTATUS] == PushStatus(c.value[MSTATUS])
    ensures TimerWrites(c, mode, pc).value[MIP] == Clear(c.value[MIP])
  {
    TrapAfterTwoWrites(c, mode, pc, Clear(c.value[MIP]), PushStatus(c.value[MSTATUS]), MSTATUS);
    TrapAfterTwoWrites(c, mode, pc, Clear(c.value[MIP]), PushStatus(c.value[MSTATUS]), MIP);
  }

  /** What a commit does to mstatus and mip. */
  lemma CommitStatus(cfg: Config, s: Hart)
    ensures var c, r := s.csrs.value, Commit(cfg, s).csrs.value;
      && (TakenAfter(cfg, s) ==> r[MSTATUS] == PushStatus(c[MSTATUS]))
      && (!TakenAfter(cfg, s) ==> r[MSTATUS] == c[MSTATUS] && (r[MIP] == c[MIP] || r[MIP] == Raise(c[MIP])))
      && (!TakenAfter(cfg, s) && TimerAsserted(cfg, s.mem) ==> r[MIP] == Raise(c[MIP]))
  {
    hide TimerAsserted, TimerWrites, Commit, TakesTimer, PushStatus;
    CommitFrame(cfg, s);
    if TakenAfter(cfg, s) {
      TimerWritesStatus(SetPending(s.csrs), s.mode, s.pc.next);
    }
  }

  /** The same for a whole round. */
  lemma RoundStatus(cfg: Config, h: Hart)
    requires Round(cfg, h).Ok?
    ensures var s, r := Step(cfg, h).hart, Round(cfg, h).hart.csrs.value;
      && (InterruptTaken(cfg, h) ==> r[MSTATUS] == PushStatus(s.csrs.value[MSTATUS]))
      && (!InterruptTaken(cfg, h) ==> r[MSTATUS] == s.csrs.value[MSTATUS])
      && (!InterruptTaken(cfg, h) ==> r[MIP] == s.csrs.value[MIP] || r[MIP] == Raise(s.csrs.value[MIP]))
      && (!InterruptTaken(cfg, h) && TimerAsserted(cfg, s.mem) ==> r[MIP] == Raise(s.csrs.value[MIP]))
  {
    hide Step, TakenAfter, Commit, PushStatus, TimerAsserted;
    CommitStatus(cfg, Step(cfg, h).hart);
  }

  // ----- the interrupt-enable stack over runs

  lemma DisabledRound(cfg: Config, h: Hart, h': Hart)
    requires Next(cfg, h, h') && !Enabled(h.csrs.value[MSTATUS])
    requires !ExecutesMret(cfg, h) && !InstructionWrites(cfg, h, MSTATUS)
    ensures !InterruptTaken(cfg, h) && h'.csrs.value[MSTATUS] == h.csrs.value[MSTATUS]
  {
    if Step(cfg, h).Ok? {
      StepKeeps(cfg, h, MSTATUS);
      RoundStatus(cfg, h);
    }
  }

  lemma {:induction false} DisabledKeeps(cfg: Config, tr: seq<Hart>, j: nat, k: nat)
    requires Run(cfg, tr) && j <= k < |tr| && !Enabled(tr[j].csrs.value[MSTATUS])
    requires forall i | j <= i < k :: !ExecutesMret(cfg, tr[i]) && !InstructionWrites(cfg, tr[i], MSTATUS)
    ensures tr[k].csrs.value[MSTATUS] == tr[j].csrs.value[MSTATUS]
  {
    hide Step, Round, Fetch, InstructionWrites, ExecutesMret, Enabled, InterruptTaken, Tick;
    if j < k {
      DisabledKeeps(cfg, tr, j, k - 1);
      DisabledRound(cfg, tr[k - 1], tr[k]);
    }
  }

  /** Once a timer interrupt has been taken no other is taken, in any number of rounds, before an mret or a CSR
      instruction that writes mstatus; and mstatus stays as the interrupt left it. */
  lemma NoNestedInterrupt(cfg: Config, tr: seq<Hart>, k: nat)
    requires Run(cfg, tr) && 2 <= k < |tr|
    requires InterruptTaken(cfg, tr[0]) && Round(cfg, tr[0]) == Ok(tr[1])
    requires forall i | 1 <= i < k :: !ExecutesMret(cfg, tr[i]) && !InstructionWrites(cfg, tr[i], MSTATUS)
    ensures !InterruptTaken(cfg, tr[k - 1])
    ensures tr[k].csrs.value[MSTATUS] == tr[1].csrs.value[MSTATUS]
  {
    hide Step, Round, Fetch, InstructionWrites, ExecutesMret, Enabled, InterruptTaken, Tick;
    InterruptDisables(cfg, tr[0]);
    DisabledKeeps(cfg, tr, 1, k - 1);
    DisabledRound(cfg, tr[k - 1], tr[k]);
  }

  lemma InterruptDisables(cfg: Config, h: Hart)
    requires InterruptTaken(cfg, h)
    ensures Round(cfg, h).Ok? && !Enabled(Round(cfg, h).hart.csrs.value[MSTATUS])
  {
    hide Step, PushStatus, Enabled, TakenAfter, Commit;
    RoundStatus(cfg, h);
    PushBits(Step(cfg, h).hart.csrs.value[MSTATUS]);
  }

  /** Without a CSR instruction that writes mstatus, traps, interrupts and mret change MIE, MPIE and MPP only. */
  lemma {:induction false} OnlyStackBitsChange(cfg: Config, tr: seq<Hart>, k: nat)
    requires Run(cfg, tr) && k < |tr|
    requires forall i | 0 <= i < k :: !InstructionWrites(cfg, tr[i], MSTATUS)
    ensures OutsideStack(tr[k].csrs.value[MSTATUS]) == OutsideStack(tr[0].csrs.value[MSTATUS])
  {
    if k > 0 {
      OnlyStackBitsChange(cfg, tr, k - 1);
      if Round(cfg, tr[k - 1]) == Ok(tr[k]) {
        RoundChangesStackBits(cfg, tr[k - 1]);
      } else {
        assert Next(cfg, tr[k - 1], tr[k]);
      }
    }
  }

  lemma MretChangesStackBits(h: Hart)
    ensures OutsideStack(ExecMret(h).csrs.value[MSTATUS]) == OutsideStack(h.csrs.value[MSTATUS])
  {
    var s := h.csrs.value[MSTATUS];
    PopBits(s);
    assert ExecMret(h).csrs.value[MSTATUS] == PopStatus(s);
  }

  lemma StepChangesStackBits(cfg: Config, h: Hart)
    requires Step(cfg, h).Ok? && !InstructionWrites(cfg, h, MSTATUS)
    ensures OutsideStack(Step(cfg, h).hart.csrs.value[MSTATUS]) == OutsideStack(h.csrs.value[MSTATUS])
  {
    if ExecutesMret(cfg, h) {
      AdvanceFrame(cfg, h, Fetch(cfg, h));
      TrapWritesConfined(h.csrs, h.mode, h.pc.pc, InstAccessFault, MSTATUS);
      MretChangesStackBits(BeforeExec(cfg, h));
    } else {
      StepKeeps(cfg, h, MSTATUS);
    }
  }

  lemma RoundChangesStackBits(cfg: Config, h: Hart)
    requires Round(cfg, h).Ok? && !InstructionWrites(cfg, h, MSTATUS)
    ensures OutsideStack(Round(cfg, h).hart.csrs.value[MSTATUS]) == OutsideStack(h.csrs.value[MSTATUS])
  {
    StepChangesStackBits(cfg, h);
    RoundStatus(cfg, h);
    PushBits(Step(cfg, h).hart.csrs.value[MSTATUS]);
  }

  // ----- pending interrupts

  /** An asserted interrupt that is not taken leaves its bit in mip. */
  lemma RefusedIsPending(cfg: Config, h: Hart)
    requires Round(cfg, h).Ok? && TimerAsserted(cfg, Step(cfg, h).hart.mem) && !InterruptTaken(cfg, h)
    ensures Pending(Round(cfg, h).hart.csrs.value[MIP])
  {
    RoundStatus(cfg, h);
    PendingBits(Step(cfg, h).hart.csrs.value[MIP]);
  }

  /** Taking the interrupt clears its bit. */
  lemma TakenIsCleared(cfg: Config, s: Hart)
    requires TakenAfter(cfg, s)
    ensures !Pending(Commit(cfg, s).csrs.value[MIP])
  {
    hide TimerAsserted, TimerWrites, Commit, TakesTimer;
    CommitFrame(cfg, s);
    TimerWritesStatus(SetPending(s.csrs), s.mode, s.pc.next);
    PendingBits(SetPending(s.csrs).value[MIP]);
  }

  /** A pending interrupt stays pending until one is taken or a CSR instruction writes mip. */
  lemma {:induction false} PendingUntilTaken(cfg: Config, tr: seq<Hart>, k: nat)
    requires Run(cfg, tr) && k < |tr| && Pending(tr[0].csrs.value[MIP])
    requires forall i | 0 <= i < k :: !InterruptTaken(cfg, tr[i]) && !InstructionWrites(cfg, tr[i], MIP)
    ensures Pending(tr[k].csrs.value[MIP])
  {
    if k > 0 {
      PendingUntilTaken(cfg, tr, k - 1);
      if Round(cfg, tr[k - 1]) == Ok(tr[k]) {
        StepKeeps(cfg, tr[k - 1], MIP);
        RoundStatus(cfg, tr[k - 1]);
        PendingBits(tr[k - 1].csrs.value[MIP]);
      } else {
        assert Next(cfg, tr[k - 1], tr[k]);
      }
    }
  }

  // ----- the way back: mret undoes the interrupt

  /** The step of this round stages no write of CSR a. */
  predicate StepSpares(cfg: Config, h: Hart, a: CsrIndex) {
    Step(cfg, h).Ok? ==> forall e | e in Step(cfg, h).hart.csrs.staged :: e.index != a
  }

  lemma SparedIsKept(cfg: Config, h: Hart, a: CsrIndex)
    requires StartOfRound(h) && Step(cfg, h).Ok? && StepSpares(cfg, h, a)
    ensures Step(cfg, h).hart.csrs.value[a] == h.csrs.value[a]
  {
    StepIsLogged(cfg, h);
    UnloggedUnchanged(h.csrs.value, Step(cfg, h).hart.csrs.staged, a);
  }

  lemma MretIsLogged(cfg: Config, h: Hart)
    requires ExecutesMret(cfg, h)
    ensures !StepSpares(cfg, h, MSTATUS)
  {
    var b, r := BeforeExec(cfg, h), Step(cfg, h).hart;
    AdvanceFrame(cfg, h, Fetch(cfg, h));
    assert r == ExecMret(b);
    assert r.csrs.staged[|r.csrs.staged| - 1].index == MSTATUS;
    assert r.csrs.staged[|r.csrs.staged| - 1] in r.csrs.staged;
  }

  /** r is the hart after a timer interrupt taken from s. */
  predicate SavedBy(s: Hart, r: Hart) {
    && r.csrs.value[MSTATUS] == PushStatus(s.csrs.value[MSTATUS]) && Enabled(s.csrs.value[MSTATUS])
    && r.csrs.value[MEPC] == if s.mode == MACHINE then SavedPc(s.pc.next, TimerM) else s.csrs.value[MEPC]
  }

  lemma InterruptSaves(cfg: Config, s: Hart)
    requires TakenAfter(cfg, s)
    ensures SavedBy(s, Commit(cfg, s))
  {
    hide TimerAsserted, PushStatus, SavedPc, Commit;
    CommitFrame(cfg, s);
    TimerWritesStatus(SetPending(s.csrs), s.mode, s.pc.next);
    if s.mode < MACHINE {
      TimerWritesConfined(SetPending(s.csrs), s.mode, s.pc.next, MEPC);
    }
  }

  /** A taken interrupt enters vector 7 of the current mode and leaves its cause, a zero value and the saved pc in
      that mode's CSRs: none of the five writes undoes another. */
  lemma InterruptEntry(cfg: Config, s: Hart)
    requires TakenAfter(cfg, s)
    ensures var r, vector := Commit(cfg, s), Forward(BaseAddress(s.csrs.value[PrivCsr(s.mode, UTVEC)]), 28);
      && r.pc == ProgramCounter(vector, vector)
      && r.csrs.value[PrivCsr(s.mode, UCAUSE)] == 0x8000_0007
      && r.csrs.value[PrivCsr(s.mode, UTVAL)] == 0
      && r.csrs.value[PrivCsr(s.mode, UEPC)] == SavedPc(s.pc.next, TimerM)
  {
    hide TimerAsserted, TakesTimer, PushStatus, Forward, BaseAddress, SavedPc, Raise, Clear;
  }

  /** A handler round that spares mstatus and mepc leaves them, and the mode, as they are. */
  lemma HandlerRound(cfg: Config, h: Hart, h': Hart)
    requires StartOfRound(h) && Next(cfg, h, h') && !Enabled(h.csrs.value[MSTATUS])
    requires Round(cfg, h) == Ok(h') ==> StepSpares(cfg, h, MSTATUS) && StepSpares(cfg, h, MEPC)
    ensures h'.mode == h.mode && h'.csrs.value[MSTATUS] == h.csrs.value[MSTATUS]
        && h'.csrs.value[MEPC] == h.csrs.value[MEPC]
  {
    if Round(cfg, h) == Ok(h') {
      SparedIsKept(cfg, h, MSTATUS);
      SparedIsKept(cfg, h, MEPC);
      RoundStatus(cfg, h);
      CommitFrame(cfg, Step(cfg, h).hart);
      if h'.mode != h.mode {
        ModeChangesOnlyInMret(cfg, h, h');
        MretIsLogged(cfg, h);
      }
    }
  }

  lemma {:induction false} HandlerKeeps(cfg: Config, tr: seq<Hart>, j: nat, k: nat)
    requires Run(cfg, tr) && StartOfRound(tr[0]) && j <= k < |tr| && !Enabled(tr[j].csrs.value[MSTATUS])
    requires forall i | j <= i < k && Round(cfg, tr[i]) == Ok(tr[i + 1]) ::
               StepSpares(cfg, tr[i], MSTATUS) && StepSpares(cfg, tr[i], MEPC)
    ensures tr[k].mode == tr[j].mode
    ensures tr[k].csrs.value[MSTATUS] == tr[j].csrs.value[MSTATUS] && tr[k].csrs.value[MEPC] == tr[j].csrs.value[MEPC]
  {
    hide Step, Round, Fetch, StepSpares, Enabled;
    if j < k {
      HandlerKeeps(cfg, tr, j, k - 1);
      RoundsStartClean(cfg, tr, k - 1);
      HandlerRound(cfg, tr[k - 1], tr[k]);
    }
  }

  lemma MretStep(cfg: Config, h: Hart)
    requires ExecutesMret(cfg, h) && ValidPc(cfg, h.pc.pc)
    ensures Step(cfg, h).Ok?
    ensures var r := Step(cfg, h).hart;
      && r.csrs.value[MSTATUS] == PopStatus(h.csrs.value[MSTATUS])
      && r.mode == PreviousPrivilege(h.csrs.value[MSTATUS])
      && r.pc.next == h.csrs.value[MEPC]
  {
    AdvanceFrame(cfg, h, Fetch(cfg, h));
    assert Step(cfg, h).hart == ExecMret(BeforeExec(cfg, h));
  }

  /** A timer interrupt taken in any mode, any number of handler rounds whose logs name neither mstatus nor mepc,
      and an mret: the enable bit is back, MPP is machine, and the mode is machine, which is the interrupted mode only
      if that was machine. The hart continues at the saved pc after an interrupt in machine mode, and at an mepc the
      interrupt never wrote after one below. */
  lemma MretAfterInterrupt(cfg: Config, tr: seq<Hart>, k: nat, s: Hart)
    requires Run(cfg, tr) && StartOfRound(tr[0]) && 1 <= k < |tr|
    requires Step(cfg, tr[0]) == Ok(s) && TakenAfter(cfg, s) && tr[1] == Commit(cfg, s)
    requires forall i | 1 <= i < k && Round(cfg, tr[i]) == Ok(tr[i + 1]) ::
               StepSpares(cfg, tr[i], MSTATUS) && StepSpares(cfg, tr[i], MEPC)
    requires ExecutesMret(cfg, tr[k]) && ValidPc(cfg, tr[k].pc.pc)
    ensures Step(cfg, tr[k]).Ok?
    ensures var r := Step(cfg, tr[k]).hart;
      && Enabled(s.csrs.value[MSTATUS]) && Enabled(r.csrs.value[MSTATUS])
      && r.csrs.value[MSTATUS] == s.csrs.value[MSTATUS] | STATUS_MPIE | STATUS_MPP
      && r.mode == MACHINE && (r.mode == s.mode <==> s.mode == MACHINE)
      && r.pc.next == (if s.mode == MACHINE then SavedPc(s.pc.next, TimerM) else s.csrs.value[MEPC])
  {
    hide Step, Round, Fetch, Commit, TakenAfter, StepSpares, PushStatus, PopStatus, PreviousPrivilege, Enabled,
      ValidPc, SavedPc;
    InterruptSaves(cfg, s);
    CommitFrame(cfg, s);
    var status := s.csrs.value[MSTATUS];
    PushBits(status);
    PopPush(status);
    HandlerKeeps(cfg, tr, 1, k);
    MretStep(cfg, tr[k]);
  }

  /** So in machine mode mret undoes the interrupt. */
  lemma MretUndoesInterrupt(cfg: Config, tr: seq<Hart>, k: nat, s: Hart)
    requires Run(cfg, tr) && StartOfRound(tr[0]) && 1 <= k < |tr|
    requires Step(cfg, tr[0]) == Ok(s) && s.mode == MACHINE && TakenAfter(cfg, s) && tr[1] == Commit(cfg, s)
    requires forall i | 1 <= i < k && Round(cfg, tr[i]) == Ok(tr[i + 1]) ::
               StepSpares(cfg, tr[i], MSTATUS) && StepSpares(cfg, tr[i], MEPC)
    requires ExecutesMret(cfg, tr[k]) && ValidPc(cfg, tr[k].pc.pc)
    ensures Step(cfg, tr[k]).Ok?
    ensures var r := Step(cfg, tr[k]).hart;
      && Enabled(s.csrs.value[MSTATUS]) && Enabled(r.csrs.value[MSTATUS])
      && r.csrs.value[MSTATUS] == s.csrs.value[MSTATUS] | STATUS_MPIE | STATUS_MPP
      && r.mode == MACHINE
      && r.pc.next == SavedPc(s.pc.next, TimerM)
  {
    hide Step, Round, Fetch, Commit, TakenAfter, StepSpares, Enabled, ValidPc, SavedPc;
    MretAfterInterrupt(cfg, tr, k, s);
  }

  /** Below machine mode the saved pc goes to that mode's own register: mepc, where mret looks, is not written. */
  lemma InterruptBelowMachine(cfg: Config, s: Hart)
    requires TakenAfter(cfg, s) && s.mode < MACHINE
    ensures var r := Commit(cfg, s);
      && r.csrs.value[MEPC] == s.csrs.value[MEPC]
      && r.csrs.value[PrivCsr(s.mode, UEPC)] == SavedPc(s.pc.next, TimerM)
  {
    hide TimerAsserted, Commit, TakesTimer, PushStatus;
    CommitFrame(cfg, s);
    TimerWritesConfined(SetPending(s.csrs), s.mode, s.pc.next, MEPC);
  }

  // ----- where mret leads

  predicate MachineIsNext(h: Hart) { PreviousPrivilege(h.csrs.value[MSTATUS]) == MACHINE }

  lemma PopMpp(s: word)
    ensures PopStatus(s) & 0x1000 != 0 && PopStatus(s) & 0x800 != 0
  {
  }

  lemma PopIsMachine(s: word)
    ensures PreviousPrivilege(PopStatus(s)) == MACHINE
  {
    hide PopStatus;
    PopMpp(s);
  }

  /** An mret round, in any mode, leaves MPP at machine and takes the mode from the old MPP. */
  lemma MretRound(cfg: Config, h: Hart)
    requires Round(cfg, h).Ok? && ExecutesMret(cfg, h)
    ensures MachineIsNext(Round(cfg, h).hart)
    ensures Round(cfg, h).hart.mode == PreviousPrivilege(h.csrs.value[MSTATUS])
  {
    hide PreviousPrivilege, PopStatus, PushStatus, ValidPc;
    AdvanceFrame(cfg, h, Fetch(cfg, h));
    TrapWritesConfined(h.csrs, h.mode, h.pc.pc, InstAccessFault, MSTATUS);
    var s := Step(cfg, h).hart;
    assert s == ExecMret(BeforeExec(cfg, h));
    PopIsMachine(h.csrs.value[MSTATUS]);
    PushBits(s.csrs.value[MSTATUS]);
    RoundStatus(cfg, h);
    CommitFrame(cfg, s);
  }

  lemma MachineStaysNext(cfg: Config, h: Hart, h': Hart)
    requires Next(cfg, h, h') && MachineIsNext(h) && !InstructionWrites(cfg, h, MSTATUS)
    ensures MachineIsNext(h')
  {
    hide PreviousPrivilege, PushStatus, Step, Fetch, InstructionWrites;
    if Round(cfg, h) == Ok(h') {
      if ExecutesMret(cfg, h) {
        MretRound(cfg, h);
      } else {
        StepKeeps(cfg, h, MSTATUS);
        PushBits(Step(cfg, h).hart.csrs.value[MSTATUS]);
        RoundStatus(cfg, h);
      }
    }
  }

  /** After one mret every later mret, in whatever mode it is executed, ends in machine mode, until a CSR
      instruction writes mstatus: nothing in the hart keeps a mode below machine there. */
  lemma {:induction false} LaterMretIsMachine(cfg: Config, tr: seq<Hart>, k: nat)
    requires Run(cfg, tr) && 1 <= k < |tr| && Round(cfg, tr[0]) == Ok(tr[1]) && ExecutesMret(cfg, tr[0])
    requires forall i | 1 <= i < k :: !InstructionWrites(cfg, tr[i], MSTATUS)
    ensures MachineIsNext(tr[k])
    ensures ExecutesMret(cfg, tr[k]) && Round(cfg, tr[k]).Ok? ==> Round(cfg, tr[k]).hart.mode == MACHINE
  {
    hide Round, Fetch, InstructionWrites, ExecutesMret, MachineIsNext, Tick;
    if k == 1 {
      MretRound(cfg, tr[0]);
    } else {
      LaterMretIsMachine(cfg, tr, k - 1);
      MachineStaysNext(cfg, tr[k - 1], tr[k]);
    }
    if ExecutesMret(cfg, tr[k]) && Round(cfg, tr[k]).Ok? {
      MachineMretRound(cfg, tr[k]);
    }
  }

  lemma MachineMretRound(cfg: Config, h: Hart)
    requires Round(cfg, h).Ok? && ExecutesMret(cfg, h) && MachineIsNext(h)
    ensures Round(cfg, h).hart.mode == MACHINE
  {
    hide Round, ExecutesMret, PreviousPrivilege;
    MretRound(cfg, h);
  }
}
