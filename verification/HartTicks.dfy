/** The timer thread and the hart: ticks reach the program through byte loads of the mtime window and in no other
    way. In particular the interrupt comparison, which reads the page store, never sees them. */
module HartTicks {
  import opened FlatMemory
  import opened SparseMemory
  import opened HartSpec
  import opened HartRuns

  /** The same hart up to the contents of the mtime window. */
  predicate SameButWindow(h: Hart, g: Hart) {
    && g.pc == h.pc && g.dec == h.dec && g.gprs == h.gprs && g.csrs == h.csrs && g.mode == h.mode && g.done == h.done
    && SamePages(h.mem, g.mem)
  }

  predicate SamePages(m: Routed, n: Routed) {
    n.mtimeAddr == m.mtimeAddr && n.mtimecmpAddr == m.mtimecmpAddr && n.pages == m.pages && n.mtimecmp == m.mtimecmp
  }

  predicate SameOutcome(r: Outcome, q: Outcome) {
    (r.Threw? && q.Threw?) || (r.Ok? && q.Ok? && SameButWindow(r.hart, q.hart))
  }

  /** The round executes a byte load inside the mtime window. */
  predicate ReadsWindow(cfg: Config, h: Hart) {
    var op := Fetch(cfg, h);
    op.tgt.LoadTarget? && (op.opt == LoadType(Lb) || op.opt == LoadType(Lbu))
    && InWindow(h.mem.mtimeAddr, At(DataAddress(h.gprs.x, op)))
  }

  lemma ExceptionIgnoresWindow(cfg: Config, h: Hart, g: Hart, cause: TrapCause)
    requires SameButWindow(h, g)
    ensures SameButWindow(Exception(cfg, h, cause), Exception(cfg, g, cause))
  {
    hide TrapWrites, TrapEntry, Exits, Poke, Bytes32;
  }

  lemma AdvanceIgnoresWindow(cfg: Config, h: Hart, g: Hart, op: Op)
    requires SameButWindow(h, g)
    ensures SameButWindow(Advance(cfg, h, op), Advance(cfg, g, op))
  {
    hide Exception, ValidPc, FallThrough, SamePages;
    var h1 := h.(dec := op, pc := h.pc.(next := FallThrough(h.pc.pc, op)));
    var g1 := g.(dec := op, pc := g.pc.(next := FallThrough(g.pc.pc, op)));
    assert SameButWindow(h1, g1);
    if ValidPc(cfg, h.pc.pc) {
      assert Advance(cfg, h, op) == h1 && Advance(cfg, g, op) == g1;
    } else {
      assert Advance(cfg, h, op) == Exception(cfg, h1, InstAccessFault);
      assert Advance(cfg, g, op) == Exception(cfg, g1, InstAccessFault);
      ExceptionIgnoresWindow(cfg, h1, g1, InstAccessFault);
    }
  }

  lemma LoadIgnoresWindow(h: Hart, g: Hart, kind: LoadKind, a: Address)
    requires SameButWindow(h, g)
    requires kind in {Lb, Lbu} ==> !InWindow(h.mem.mtimeAddr, a)
    ensures Load(h.mem, kind, a) == Load(g.mem, kind, a)
  {
    hide SignExtend8, SignExtend16, LoadHalf, LoadWord, InWindow;
  }

  lemma StoreIgnoresWindow(m: Routed, n: Routed, kind: StoreKind, a: Address, v: word)
    requires SamePages(m, n)
    ensures SamePages(StoreValue(m, kind, a, v), StoreValue(n, kind, a, v))
  {
    hide Poke, Bytes16, Bytes32, InWindow;
  }

  lemma ExecLoadIgnoresWindow(h: Hart, g: Hart)
    requires SameButWindow(h, g)
    requires h.dec.opt == LoadType(Lb) || h.dec.opt == LoadType(Lbu) ==>
               !InWindow(h.mem.mtimeAddr, At(DataAddress(h.gprs.x, h.dec)))
    ensures SameOutcome(ExecLoad(h), ExecLoad(g))
  {
    hide Load, DataAddress, At, InWindow, WriteGpr;
    if h.dec.opt.LoadType? {
      LoadIgnoresWindow(h, g, h.dec.opt.load, At(DataAddress(h.gprs.x, h.dec)));
    }
  }

  lemma ExecStoreIgnoresWindow(cfg: Config, h: Hart, g: Hart)
    requires SameButWindow(h, g)
    ensures SameOutcome(ExecStore(cfg, h), ExecStore(cfg, g))
  {
    hide StoreValue, DataAddress, At;
    if h.dec.opt.StoreType? {
      StoreIgnoresWindow(h.mem, g.mem, h.dec.opt.store, At(DataAddress(h.gprs.x, h.dec)), h.gprs.x[h.dec.rs2]);
    }
  }

  lemma ExecCsrIgnoresWindow(cfg: Config, h: Hart, g: Hart)
    requires SameButWindow(h, g)
    ensures SameOutcome(ExecCsr(cfg, h), ExecCsr(cfg, g))
  {
    hide Exception, CsrDecision, CsrOperand, CsrOldValue, At, WriteGpr, WriteCsr;
    ExceptionIgnoresWindow(cfg, h, g, InstIllegal);
  }

  lemma ExecAluIgnoresWindow(cfg: Config, h: Hart, g: Hart)
    requires SameButWindow(h, g)
    ensures SameOutcome(ExecAlu(cfg, h), ExecAlu(cfg, g)) && SameOutcome(ExecBranch(h), ExecBranch(g))
    ensures SameButWindow(ExecMret(h), ExecMret(g))
  {
    hide WriteGpr, WriteCsr, FallThrough, BranchAddress, ShouldBranch, PreviousPrivilege, PopStatus;
  }

  lemma ExecIgnoresWindow(cfg: Config, h: Hart, g: Hart)
    requires SameButWindow(h, g)
    requires h.dec.tgt.LoadTarget? && (h.dec.opt == LoadType(Lb) || h.dec.opt == LoadType(Lbu)) ==>
               !InWindow(h.mem.mtimeAddr, At(DataAddress(h.gprs.x, h.dec)))
    ensures SameOutcome(Exec(cfg, h), Exec(cfg, g))
  {
    hide Exception, ExecLoad, ExecStore, ExecCsr, ExecAlu, ExecBranch, ExecMret, DataAddress, At, InWindow, SamePages,
      EcallCause;
    ExecAluIgnoresWindow(cfg, h, g);
    match h.dec.tgt {
      case CsrTarget => ExecCsrIgnoresWindow(cfg, h, g);
      case Ecall => ExceptionIgnoresWindow(cfg, h, g, EcallCause(h.mode));
      case Illegal => ExceptionIgnoresWindow(cfg, h, g, InstIllegal);
      case Ebreak => ExceptionIgnoresWindow(cfg, h, g, Breakpoint);
      case StoreTarget => ExecStoreIgnoresWindow(cfg, h, g);
      case LoadTarget => ExecLoadIgnoresWindow(h, g);
      case _ =>
    }
  }

  lemma AssertedIgnoresWindow(cfg: Config, m: Routed, n: Routed)
    requires SamePages(m, n)
    ensures TimerAsserted(cfg, m) == TimerAsserted(cfg, n)
  {
    hide LoadDword;
  }

  lemma TimerTrapIgnoresWindow(h: Hart, g: Hart)
    requires SameButWindow(h, g)
    ensures SameButWindow(TimerTrap(h), TimerTrap(g))
  {
    hide TakesTimer, TimerWrites, TimerVector, SamePages;
  }

  lemma CommitIgnoresWindow(cfg: Config, h: Hart, g: Hart)
    requires SameButWindow(h, g)
    ensures SameButWindow(Commit(cfg, h), Commit(cfg, g))
  {
    hide TimerAsserted, TimerTrap, SetPending;
    AssertedIgnoresWindow(cfg, h.mem, g.mem);
    var h1, g1 := h.(pc := h.pc.(pc := h.pc.next)), g.(pc := g.pc.(pc := g.pc.next));
    TimerTrapIgnoresWindow(h1.(csrs := SetPending(h1.csrs)), g1.(csrs := SetPending(g1.csrs)));
  }

  lemma UnreadIgnoresWindow(cfg: Config, h: Hart, g: Hart)
    requires SameButWindow(h, g) && !ReadsWindow(cfg, h)
    ensures SameOutcome(Round(cfg, h), Round(cfg, g))
  {
    hide Exec, Advance, Commit, InWindow, At, DataAddress, LoadWord;
    assert Fetch(cfg, g) == Fetch(cfg, h);
    AdvanceIgnoresWindow(cfg, h, g, Fetch(cfg, h));
    AdvanceKeeps(cfg, h, Fetch(cfg, h));
    ExecIgnoresWindow(cfg, BeforeExec(cfg, h), BeforeExec(cfg, g));
    if Step(cfg, h).Ok? {
      CommitIgnoresWindow(cfg, Step(cfg, h).hart, Step(cfg, g).hart);
    }
  }

  /** The byte the round reads from the window goes to a register that keeps it. */
  predicate NoticesWindow(cfg: Config, h: Hart) {
    ReadsWindow(cfg, h) && Fetch(cfg, h).rd != 0
  }

  function WithoutLog(h: Hart): Hart { h.(gprs := Gprs(h.gprs.x, [])) }

  lemma CommitDropsLog(cfg: Config, h: Hart)
    ensures Commit(cfg, h) == Commit(cfg, WithoutLog(h))
  {
    hide TimerAsserted, TakesTimer, TimerVector, TimerWrites, SetPending;
  }

  lemma ZeroLoad(cfg: Config, h: Hart)
    requires h.dec.tgt.LoadTarget? && h.dec.opt.LoadType? && h.dec.rd == 0
    ensures Exec(cfg, h).Ok? && WithoutLog(Exec(cfg, h).hart) == WithoutLog(h)
  {
    hide Load, At, DataAddress;
  }

  /** A load into x0 leaves nothing of what it read. */
  lemma ZeroLoadIgnoresWindow(cfg: Config, h: Hart, g: Hart)
    requires SameButWindow(h, g) && Fetch(cfg, h).tgt.LoadTarget? && Fetch(cfg, h).opt.LoadType?
        && Fetch(cfg, h).rd == 0
    ensures SameOutcome(Round(cfg, h), Round(cfg, g))
  {
    hide Exec, Advance, Commit, LoadWord;
    assert Fetch(cfg, g) == Fetch(cfg, h);
    var b, c := BeforeExec(cfg, h), BeforeExec(cfg, g);
    AdvanceIgnoresWindow(cfg, h, g, Fetch(cfg, h));
    AdvanceKeeps(cfg, h, Fetch(cfg, h));
    ZeroLoad(cfg, b);
    ZeroLoad(cfg, c);
    CommitDropsLog(cfg, Step(cfg, h).hart);
    CommitDropsLog(cfg, Step(cfg, g).hart);
    CommitIgnoresWindow(cfg, WithoutLog(b), WithoutLog(c));
  }

  lemma RoundIgnoresWindow(cfg: Config, h: Hart, g: Hart)
    requires SameButWindow(h, g) && !NoticesWindow(cfg, h)
    ensures SameOutcome(Round(cfg, h), Round(cfg, g))
  {
    hide Round, InWindow, At, DataAddress, SameOutcome, SameButWindow;
    if ReadsWindow(cfg, h) {
      ZeroLoadIgnoresWindow(cfg, h, g);
    } else {
      UnreadIgnoresWindow(cfg, h, g);
    }
  }

  // ----- a round that notices the window

  /** The same hart with another byte at the address it reads. */
  function Altered(cfg: Config, h: Hart): Hart
    requires ReadsWindow(cfg, h)
  {
    var i := At(DataAddress(h.gprs.x, Fetch(cfg, h))) - h.mem.mtimeAddr;
    h.(mem := h.mem.(mtime := h.mem.mtime[i := Other(h.mem.mtime[i])]))
  }

  function Other(b: byte): byte { b ^ 1 }

  lemma OtherLoads(b: byte)
    ensures SignExtend8(Other(b)) != SignExtend8(b) && (Other(b) as word) != (b as word)
  {
  }

  lemma LoadedRegister(cfg: Config, h: Hart)
    requires Fetch(cfg, h).tgt.LoadTarget? && Fetch(cfg, h).opt.LoadType? && Fetch(cfg, h).rd != 0
    ensures Round(cfg, h).Ok?
    ensures Round(cfg, h).hart.gprs.x[Fetch(cfg, h).rd]
         == Load(h.mem, Fetch(cfg, h).opt.load, At(DataAddress(h.gprs.x, Fetch(cfg, h))))
  {
    hide Advance, Commit, LoadWord, Load, At, DataAddress;
    AdvanceKeeps(cfg, h, Fetch(cfg, h));
    CommitKeeps(cfg, Step(cfg, h).hart);
  }

  lemma NoticedByte(cfg: Config, h: Hart)
    requires NoticesWindow(cfg, h)
    ensures SameButWindow(h, Altered(cfg, h)) && !SameOutcome(Round(cfg, h), Round(cfg, Altered(cfg, h)))
  {
    hide Round, LoadWord, At, DataAddress, Other, SignExtend8, SignExtend16;
    var g := Altered(cfg, h);
    assert Fetch(cfg, g) == Fetch(cfg, h);
    LoadedRegister(cfg, h);
    LoadedRegister(cfg, g);
    OtherLoads(h.mem.mtime[At(DataAddress(h.gprs.x, Fetch(cfg, h))) - h.mem.mtimeAddr]);
  }

  /** A round does the same whatever the mtime window holds, exactly when it does not load a byte of it into a
      register other than x0. */
  lemma IgnoresWindowIffUnnoticed(cfg: Config, h: Hart)
    ensures (forall g | SameButWindow(h, g) :: SameOutcome(Round(cfg, h), Round(cfg, g))) <==> !NoticesWindow(cfg, h)
  {
    hide Round, SameButWindow, SameOutcome, NoticesWindow, Altered;
    if NoticesWindow(cfg, h) {
      NoticedByte(cfg, h);
    } else {
      forall g | SameButWindow(h, g)
        ensures SameOutcome(Round(cfg, h), Round(cfg, g))
      {
        RoundIgnoresWindow(cfg, h, g);
      }
    }
  }

  // ----- whole schedules

  datatype Event = RoundEvent | TickEvent

  function RunEvents(cfg: Config, h: Hart, events: seq<Event>): Outcome
    decreases |events|
  {
    if events == [] then Ok(h)
    else if events[0].TickEvent? then RunEvents(cfg, Tick(h), events[1..])
    else
      var r := Round(cfg, h);
      if r.Threw? then Threw else RunEvents(cfg, r.hart, events[1..])
  }

  function RoundsOnly(events: seq<Event>): seq<Event> {
    if events == [] then []
    else if events[0].TickEvent? then RoundsOnly(events[1..])
    else [RoundEvent] + RoundsOnly(events[1..])
  }

  /** No round of the schedule loads a byte of the mtime window into a register other than x0. */
  predicate NeverNoticesWindow(cfg: Config, h: Hart, events: seq<Event>)
    decreases |events|
  {
    events == []
    || (events[0].TickEvent? && NeverNoticesWindow(cfg, Tick(h), events[1..]))
    || (events[0].RoundEvent? && !NoticesWindow(cfg, h)
        && (Round(cfg, h).Ok? ==> NeverNoticesWindow(cfg, Round(cfg, h).hart, events[1..])))
  }

  /** A program that never loads a byte of the mtime window into a register runs the same with any ticks, at any
      moments, as with none: every register, CSR, page, interrupt and halt decision agrees. */
  lemma {:induction false} TicksAreInvisible(cfg: Config, h: Hart, g: Hart, events: seq<Event>)
    requires SameButWindow(h, g) && NeverNoticesWindow(cfg, h, events)
    ensures SameOutcome(RunEvents(cfg, h, events), RunEvents(cfg, g, RoundsOnly(events)))
    decreases |events|
  {
    hide Round, NoticesWindow;
    if events != [] {
      if events[0].TickEvent? {
        TicksAreInvisible(cfg, Tick(h), g, events[1..]);
      } else {
        RoundIgnoresWindow(cfg, h, g);
        var rest := RoundsOnly(events[1..]);
        assert RoundsOnly(events)[1..] == rest;
        if Round(cfg, h).Ok? {
          TicksAreInvisible(cfg, Round(cfg, h).hart, Round(cfg, g).hart, events[1..]);
        }
      }
    }
  }

  // ----- ticks inside a round

  function Ticks(h: Hart, n: nat): Hart {
    if n == 0 then h else Tick(Ticks(h, n - 1))
  }

  /** A round with n ticks before the instruction touches memory, and m ticks after it and before commit. */
  function RoundWithTicks(cfg: Config, h: Hart, n: nat, m: nat): Outcome {
    var r := Exec(cfg, Ticks(BeforeExec(cfg, h), n));
    if r.Threw? then Threw else Ok(Commit(cfg, Ticks(r.hart, m)))
  }

  lemma ExceptionTick(cfg: Config, h: Hart, cause: TrapCause)
    requires !IsEcall(cause)
    ensures Exception(cfg, Tick(h), cause) == Tick(Exception(cfg, h, cause))
  {
    hide TrapWrites, TrapEntry;
  }

  lemma BeforeExecTick(cfg: Config, h: Hart)
    ensures BeforeExec(cfg, Tick(h)) == Tick(BeforeExec(cfg, h))
  {
    hide LoadWord, Exception, FallThrough, ValidPc;
    var op := Fetch(cfg, h);
    assert Fetch(cfg, Tick(h)) == op;
    ExceptionTick(cfg, h.(dec := op, pc := h.pc.(next := FallThrough(h.pc.pc, op))), InstAccessFault);
  }

  lemma CommitTick(cfg: Config, h: Hart)
    ensures Commit(cfg, Tick(h)) == Tick(Commit(cfg, h))
  {
    hide LoadDword, Exceeds, TakesTimer, TimerVector, TimerWrites, SetPending;
  }

  lemma {:induction false} BeforeExecTicks(cfg: Config, h: Hart, n: nat)
    ensures BeforeExec(cfg, Ticks(h, n)) == Ticks(BeforeExec(cfg, h), n)
  {
    hide Tick, BeforeExec;
    if n > 0 {
      BeforeExecTicks(cfg, h, n - 1);
      BeforeExecTick(cfg, Ticks(h, n - 1));
    }
  }

  lemma {:induction false} CommitTicks(cfg: Config, h: Hart, m: nat)
    ensures Commit(cfg, Ticks(h, m)) == Ticks(Commit(cfg, h), m)
  {
    hide Tick, Commit;
    if m > 0 {
      CommitTicks(cfg, h, m - 1);
      CommitTick(cfg, Ticks(h, m - 1));
    }
  }

  /** Ticks inside a round are ticks at its edges: the ones before the memory access of the instruction come before
      the round, the others after it. So runs with ticks between rounds are all runs. */
  lemma RoundAbsorbsTicks(cfg: Config, h: Hart, n: nat, m: nat)
    ensures RoundWithTicks(cfg, h, n, m)
         == (var r := Round(cfg, Ticks(h, n)); if r.Threw? then Threw else Ok(Ticks(r.hart, m)))
  {
    hide Exec, Commit, BeforeExec, Ticks;
    BeforeExecTicks(cfg, h, n);
    var r := Exec(cfg, Ticks(BeforeExec(cfg, h), n));
    if r.Ok? {
      CommitTicks(cfg, r.hart, m);
    }
  }
}
