/** The simulator's hart as it is written: objects updated in place, each method proved against the value-level
    function of Hart that says what it computes. */
module Model {
  import opened FlatMemory
  import opened SparseMemory

  import opened HartSpec

  /** reg_file */
  class RegisterFile {
    const x: array<word>

    ghost predicate Valid() { x.Length == 32 }

    constructor ()
      ensures Valid() && fresh(x) && x[..] == seq(32, _ => 0)
    {
      x := new word[32](_ => 0);
    }

    ghost function Contents(): RegFile
      requires Valid()
      reads x
    {
      x[..]
    }

    method Write(index: RegIndex, data: word)
      requires Valid()
      modifies x
      ensures Contents() == SetReg(old(Contents()), index, data)
    {
      if index == 0 { return; }
      x[index] := data;
    }

    /** The overload that fills a change record. */
    method WriteChange(index: RegIndex, data: word) returns (out: GprChange)
      requires Valid()
      modifies x
      ensures Contents() == SetReg(old(Contents()), index, data)
      ensures out == GprChange(index, old(Contents())[index], data)
    {
      out := GprChange(index, x[index], data);
      Write(index, data);
    }

    /** The overload that appends the record to a vector. */
    method WriteLogged(index: RegIndex, data: word, vec: seq<GprChange>) returns (log: seq<GprChange>)
      requires Valid()
      modifies x
      ensures Gprs(Contents(), log) == HartSpec.WriteGpr(Gprs(old(Contents()), vec), index, data)
    {
      var tmp := WriteChange(index, data);
      log := vec + [tmp];
    }
  }

  /** csr_file; the callers keep the index below 4096, where std::array::at would throw. */
  class CsrRegisters {
    const csrs: array<word>

    ghost predicate Valid() { csrs.Length == 4096 }

    constructor ()
      ensures Valid() && fresh(csrs) && csrs[..] == seq(4096, _ => 0)
    {
      csrs := new word[4096](_ => 0);
    }

    ghost function Contents(): CsrFile
      requires Valid()
      reads csrs
    {
      csrs[..]
    }

    method WriteChange(index: CsrIndex, v: word) returns (out: CsrChange)
      requires Valid()
      modifies csrs
      ensures Contents() == old(Contents())[index := v]
      ensures out == CsrChange(index, old(Contents())[index], v)
    {
      out := CsrChange(index, csrs[index], v);
      csrs[index] := v;
    }

    method WriteLogged(index: CsrIndex, v: word, vec: seq<CsrChange>) returns (log: seq<CsrChange>)
      requires Valid()
      modifies csrs
      ensures Csrs(Contents(), log) == HartSpec.WriteCsr(Csrs(old(Contents()), vec), index, v)
    {
      var tmp := WriteChange(index, v);
      log := vec + [tmp];
    }
  }

  /** The op a hart_state starts with. */
  const NO_OP := Op(0, NoType, Illegal, 0, 0, 0, false, false, false)

  // ----- std::bitset, on the bits of mstatus and mip

  const MPP_LOW: word := 0x800
  const MPP_HIGH: word := 0x1000

  function TestBit(w: word, bit: word): bool { w & bit != 0 }

  function AssignBit(w: word, bit: word, on: bool): word { if on then w | bit else w & (bit ^ 0xFFFF_FFFF) }

  /** mstatus after the four assignments of trap, in their order. */
  function Pushed(s: word): word {
    var s1 := AssignBit(AssignBit(s, MPP_LOW, true), MPP_HIGH, true);
    var s2 := AssignBit(s1, STATUS_MPIE, TestBit(s1, STATUS_MIE));
    AssignBit(s2, STATUS_MIE, false)
  }

  lemma DisabledStatus(s: word)
    requires s & 0x8 == 0
    ensures PushStatus(s) == (s | 0x1800) & 0xFFFF_FF77
  {
  }

  lemma DisabledPushed(s: word)
    requires s & 0x8 == 0
    ensures Pushed(s) == (s | 0x1800) & 0xFFFF_FF77
  {
  }

  lemma PushDisabled(s: word)
    requires s & 0x8 == 0
    ensures Pushed(s) == PushStatus(s)
  {
    hide Pushed, PushStatus;
    DisabledStatus(s);
    DisabledPushed(s);
  }

  lemma PushEnabled(s: word)
    requires s & 0x8 != 0
    ensures Pushed(s) == PushStatus(s)
  {
  }

  /** They push the interrupt-enable stack. */
  lemma PushAssignments(s: word)
    ensures Pushed(s) == PushStatus(s)
  {
    hide Pushed, PushStatus;
    if s & 0x8 == 0 {
      PushDisabled(s);
    } else {
      PushEnabled(s);
    }
  }

  /** The four assignments of handle_mret pop it. */
  lemma PopAssignments(s: word)
    ensures var s1 := AssignBit(s, STATUS_MIE, TestBit(s, STATUS_MPIE));
      var s2 := AssignBit(AssignBit(s1, STATUS_MPIE, true), MPP_LOW, true);
      AssignBit(s2, MPP_HIGH, true) == PopStatus(s)
  {
  }

  lemma PrivilegeBits(s: word)
    ensures (if TestBit(s, MPP_HIGH) then 2 else 0) + (if TestBit(s, MPP_LOW) then 1 else 0) == PreviousPrivilege(s)
  {
  }

  lemma ResetPending(mip: word)
    ensures AssignBit(mip, TIMER_BIT, false) == Clear(mip)
  {
  }

  lemma SetPendingBit(mip: word)
    ensures AssignBit(mip, TIMER_BIT, true) == Raise(mip)
  {
  }

  /** iss::model */
  class Model {
    const cfg: Config
    const regf: RegisterFile
    const csrf: CsrRegisters
    const mem: AddressRouter
    var pc: word
    var pcNext: word
    var dec: Op
    var gprStaged: seq<GprChange>
    var csrStaged: seq<CsrChange>
    var mode: Privilege
    var base: int
    var isDone: bool

    ghost predicate Valid()
      reads this, mem, mem.page.Values
    {
      regf.Valid() && csrf.Valid() && regf.x != csrf.csrs && mem.Valid() && base == mode * 0x100
    }

    ghost function Footprint(): set<object>
      reads this, mem
    {
      {this, regf.x, csrf.csrs} + mem.Repr()
    }

    ghost function View(): Hart
      requires Valid()
      reads this, regf.x, csrf.csrs, mem, mem.page.Values, mem.mtime, mem.mtimecmp
    {
      Hart(ProgramCounter(pc, pcNext), dec, Gprs(regf.Contents(), gprStaged), Csrs(csrf.Contents(), csrStaged),
           mode, mem.Routed(), isDone)
    }

    constructor (cfg: Config, entry: word, mem: AddressRouter)
      requires mem.Valid()
      ensures Valid() && fresh(Footprint() - mem.Repr()) && this.cfg == cfg && this.mem == mem
      ensures View() == Hart(ProgramCounter(entry, entry), NO_OP, Gprs(seq(32, _ => 0), []),
          Csrs(seq(4096, _ => 0), []),
                             MACHINE, mem.Routed(), false)
    {
      this.cfg, this.mem := cfg, mem;
      regf := new RegisterFile();
      csrf := new CsrRegisters();
      pc, pcNext, dec := entry, entry, NO_OP;
      gprStaged, csrStaged, isDone := [], [], false;
      mode, base := MACHINE, MACHINE * 0x100;
    }

    // ----- reads and writes of the state

    function ReadGpr(index: RegIndex): (v: word)
      requires Valid()
      reads this, regf.x, csrf.csrs, mem, mem.page.Values, mem.mtime, mem.mtimecmp
      ensures v == View().gprs.x[index]
    {
      regf.x[index]
    }

    function ReadCsr(index: CsrIndex): (v: word)
      requires Valid()
      reads this, regf.x, csrf.csrs, mem, mem.page.Values, mem.mtime, mem.mtimecmp
      ensures v == View().csrs.value[index]
    {
      csrf.csrs[index]
    }

    method WriteGpr(index: RegIndex, v: word)
      requires Valid()
      modifies Footprint()
      ensures Valid() && forall o | o in Footprint() :: o in old(Footprint()) || fresh(o)
      ensures View() == old(View()).(gprs := HartSpec.WriteGpr(old(View()).gprs, index, v))
    {
      gprStaged := regf.WriteLogged(index, v, gprStaged);
    }

    method WriteCsr(index: CsrIndex, v: word)
      requires Valid()
      modifies Footprint()
      ensures Valid() && forall o | o in Footprint() :: o in old(Footprint()) || fresh(o)
      ensures View() == old(View()).(csrs := HartSpec.WriteCsr(old(View()).csrs, index, v))
    {
      csrStaged := csrf.WriteLogged(index, v, csrStaged);
    }

    /** program_counter::set */
    method SetPc(next: word)
      requires Valid()
      modifies Footprint()
      ensures Valid() && forall o | o in Footprint() :: o in old(Footprint()) || fresh(o)
      ensures View() == old(View()).(pc := old(View()).pc.(next := next))
    {
      pcNext := next;
    }

    /** program_counter::update */
    method UpdatePc()
      requires Valid()
      modifies Footprint()
      ensures Valid() && forall o | o in Footprint() :: o in old(Footprint()) || fresh(o)
      ensures View() == old(View()).(pc := old(View()).pc.(pc := old(View()).pc.next))
    {
      pc := pcNext;
    }

    function Pc(): (v: word)
      requires Valid()
      reads this, regf.x, csrf.csrs, mem, mem.page.Values, mem.mtime, mem.mtimecmp
      ensures v == View().pc.pc
    {
      pc
    }

    function Decoded(): (op: Op)
      requires Valid()
      reads this, regf.x, csrf.csrs, mem, mem.page.Values, mem.mtime, mem.mtimecmp
      ensures op == View().dec
    {
      dec
    }

    /** privileged_mode::mode */
    function Mode(): (m: Privilege)
      requires Valid()
      reads this, regf.x, csrf.csrs, mem, mem.page.Values, mem.mtime, mem.mtimecmp
      ensures m == View().mode
    {
      mode
    }

    /** privileged_mode::priv_csr */
    function ModeCsr(c: CsrIndex): (index: CsrIndex)
      requires Valid() && c < 0x100
      reads this, regf.x, csrf.csrs, mem, mem.page.Values, mem.mtime, mem.mtimecmp
      ensures index == PrivCsr(View().mode, c)
    {
      base + c
    }

    /** privileged_mode::set_mode */
    method SetMode(m: Privilege)
      requires Valid()
      modifies Footprint()
      ensures Valid() && forall o | o in Footprint() :: o in old(Footprint()) || fresh(o)
      ensures View() == old(View()).(mode := m)
    {
      mode := m;
      base := m * 0x100;
    }

    method SetDone(done: bool)
      requires Valid()
      modifies Footprint()
      ensures Valid() && forall o | o in Footprint() :: o in old(Footprint()) || fresh(o)
      ensures View() == old(View()).(done := done)
    {
      isDone := done;
    }

    // ----- traps

    method SetPending()
      requires Valid()
      modifies Footprint()
      ensures Valid() && forall o | o in Footprint() :: o in old(Footprint()) || fresh(o)
      ensures View() == old(View()).(csrs := HartSpec.SetPending(old(View()).csrs))
    {
      hide Valid, View, Footprint, HartSpec.WriteCsr, Raise, AssignBit;
      var mip := ReadCsr(MIP);
      SetPendingBit(mip);
      WriteCsr(MIP, AssignBit(mip, TIMER_BIT, true));
    }

    method Trap(cause: TrapCause)
      requires Valid()
      modifies Footprint()
      ensures Valid() && forall o | o in Footprint() :: o in old(Footprint()) || fresh(o)
      ensures cause == TimerM ==> View() == TimerTrap(old(View()))
      ensures cause != TimerM ==> View() == Exception(cfg, old(View()), cause)
    {
      hide Valid, View, Footprint, Clear, PushStatus, AssignBit, Entered, TrapWrites, HartSpec.WriteCsr, SysExit,
        TimerVector, TrapEntry;
      var isInterrupt := cause == TimerM;
      if isInterrupt {
        var take := TestBit(ReadCsr(MIE), TIMER_BIT) && TestBit(ReadCsr(MIP), TIMER_BIT)
            && TestBit(ReadCsr(MSTATUS), STATUS_MIE);
        assert take == TakesTimer(View().csrs.value);
        if !take {
          return;
        }
        var mstatus, mip := ReadCsr(MSTATUS), ReadCsr(MIP);
        PushAssignments(mstatus);
        ResetPending(mip);
        VectorKept(View().csrs, View().mode, Clear(mip), PushStatus(mstatus));
        mip := AssignBit(mip, TIMER_BIT, false);
        WriteCsr(MIP, mip);
        mstatus := AssignBit(mstatus, MPP_LOW, true);
        mstatus := AssignBit(mstatus, MPP_HIGH, true);
        mstatus := AssignBit(mstatus, STATUS_MPIE, TestBit(mstatus, STATUS_MIE));
        mstatus := AssignBit(mstatus, STATUS_MIE, false);
        WriteCsr(MSTATUS, mstatus);
      }
      EnteredIs(cfg, View(), cause);
      EnterHandler(cause, isInterrupt);
      if isInterrupt {
        UpdatePc();
      }
    }

    /** The part of trap that interrupts and exceptions share. */
    method EnterHandler(cause: TrapCause, isInterrupt: bool)
      requires Valid() && isInterrupt == (cause == TimerM)
      modifies Footprint()
      ensures Valid() && forall o | o in Footprint() :: o in old(Footprint()) || fresh(o)
      ensures View() == Entered(cfg, old(View()), cause)
    {
      hide Valid, View, Footprint, Code, AfterSavePc, BaseAddress, Forward;
      WriteCsr(ModeCsr(UCAUSE), Code(cause));
      WriteCsr(ModeCsr(UTVAL), 0);
      var entry := BaseAddress(ReadCsr(ModeCsr(UTVEC)));
      if isInterrupt {
        entry := Forward(entry, 28);
      }
      SetPc(entry);
      SavePc(cause);
    }

    method SavePc(cause: TrapCause)
      requires Valid()
      modifies Footprint()
      ensures Valid() && forall o | o in Footprint() :: o in old(Footprint()) || fresh(o)
      ensures View() == AfterSavePc(cfg, old(View()), cause)
    {
      hide Valid, View, Footprint, SysExit, PrivCsr, BaseAddress, Forward, HartSpec.WriteCsr;
      var epc := BaseAddress(Pc());
      match cause {
        case EcallHS | EcallM | EcallVS | EcallU =>
          WriteCsr(ModeCsr(UEPC), epc);
          HandleSysExit();
        case Breakpoint =>
          WriteCsr(ModeCsr(UEPC), epc);
        case _ =>
          WriteCsr(ModeCsr(UEPC), BaseAddress(Forward(epc, 4)));
      }
    }

    method StoreWordAt(a: Address, v: word)
      requires Valid()
      modifies Footprint()
      ensures Valid() && forall o | o in Footprint() :: o in old(Footprint()) || fresh(o)
      ensures View() == old(View()).(mem := StoreWord(old(View()).mem, a, v))
    {
      mem.PageWrite32(a, v);
    }

    method HandleSysExit()
      requires Valid()
      modifies Footprint()
      ensures Valid() && forall o | o in Footprint() :: o in old(Footprint()) || fresh(o)
      ensures View() == SysExit(cfg, old(View()))
    {
      hide Valid, View, Footprint, StoreWord;
      if ReadGpr(17) == 93 {
        StoreWordAt(cfg.tohost, ReadGpr(10));
        SetDone(true);
      }
    }

    // ----- memory

    function ByteAt(a: Address): (b: byte)
      requires Valid()
      reads this, regf.x, csrf.csrs, mem, mem.page.Values, mem.mtime, mem.mtimecmp
      ensures b == RoutedByte(View().mem, a)
    {
      mem.Read8(a)
    }

    function HalfAt(a: Address): (h: half)
      requires Valid()
      reads this, regf.x, csrf.csrs, mem, mem.page.Values, mem.mtime, mem.mtimecmp
      ensures h == LoadHalf(View().mem.pages, a)
    {
      mem.PageRead16(a)
    }

    function WordAt(a: Address): (w: word)
      requires Valid()
      reads this, regf.x, csrf.csrs, mem, mem.page.Values, mem.mtime, mem.mtimecmp
      ensures w == LoadWord(View().mem.pages, a)
    {
      mem.PageRead32(a)
    }

    /** options::mtime and options::mtimecmp, the addresses the router was made with. */
    function MtimeAddr(): (a: Address)
      requires Valid()
      reads this, regf.x, csrf.csrs, mem, mem.page.Values, mem.mtime, mem.mtimecmp
      ensures a == View().mem.mtimeAddr
    {
      mem.mtimeAddr
    }

    function MtimecmpAddr(): (a: Address)
      requires Valid()
      reads this, regf.x, csrf.csrs, mem, mem.page.Values, mem.mtime, mem.mtimecmp
      ensures a == View().mem.mtimecmpAddr
    {
      mem.mtimecmpAddr
    }

    function DwordAt(a: Address): (d: dword)
      requires Valid()
      reads this, regf.x, csrf.csrs, mem, mem.page.Values, mem.mtime, mem.mtimecmp
      ensures d == LoadDword(View().mem.pages, a)
    {
      mem.PageRead64(a)
    }

    method LoadFrom(kind: LoadKind, a: Address) returns (v: word)
      requires Valid()
      ensures v == Load(View().mem, kind, a)
    {
      hide Valid, View, LoadHalf, LoadWord, RoutedByte, SignExtend8, SignExtend16;
      match kind {
        case Lb => v := SignExtend8(ByteAt(a));
        case Lh => v := SignExtend16(HalfAt(a));
        case Lw => v := WordAt(a);
        case Lbu => v := ByteAt(a) as word;
        case Lhu => v := HalfAt(a) as word;
      }
    }

    method StoreTo(kind: StoreKind, a: Address, v: word)
      requires Valid()
      modifies Footprint()
      ensures Valid() && forall o | o in Footprint() :: o in old(Footprint()) || fresh(o)
      ensures View() == old(View()).(mem := StoreValue(old(View()).mem, kind, a, v))
    {
      match kind {
        case Sb => mem.Write8(a, (v & 0xFF) as byte);
        case Sh => mem.PageWrite16(a, (v & 0xFFFF) as half);
        case Sw => mem.PageWrite32(a, v);
      }
    }

    // ----- instructions; threw says that the C++ code left by an exception

    method HandleBranch() returns (threw: bool)
      requires Valid()
      modifies Footprint()
      ensures Valid() && forall o | o in Footprint() :: o in old(Footprint()) || fresh(o)
      ensures threw == ExecBranch(old(View())).Threw?
      ensures !threw ==> View() == ExecBranch(old(View())).hart
    {
      hide Valid, View, Footprint, ShouldBranch, BranchAddress;
      var op := Decoded();
      if !op.opt.BranchType? { return true; }
      if ShouldBranch(ReadGpr(op.rs1), ReadGpr(op.rs2), op.opt.branch) {
        SetPc(BranchAddress(Pc(), op));
      }
      threw := false;
    }

    method HandleLoad() returns (threw: bool)
      requires Valid()
      modifies Footprint()
      ensures Valid() && forall o | o in Footprint() :: o in old(Footprint()) || fresh(o)
      ensures threw == ExecLoad(old(View())).Threw?
      ensures !threw ==> View() == ExecLoad(old(View())).hart
    {
      hide Valid, View, Footprint, Load, At, Forward, HartSpec.WriteGpr;
      var op := Decoded();
      if !op.opt.LoadType? { return true; }
      var addr := At(Forward(ReadGpr(op.rs1), op.imm));
      var value := LoadFrom(op.opt.load, addr);
      WriteGpr(op.rd, value);
      threw := false;
    }

    method HandleStore() returns (threw: bool)
      requires Valid()
      modifies Footprint()
      ensures Valid() && forall o | o in Footprint() :: o in old(Footprint()) || fresh(o)
      ensures threw == ExecStore(cfg, old(View())).Threw?
      ensures !threw ==> View() == ExecStore(cfg, old(View())).hart
    {
      hide Valid, View, Footprint, StoreValue, At, Forward;
      var op := Decoded();
      if !op.opt.StoreType? { return true; }
      var addr := At(Forward(ReadGpr(op.rs1), op.imm));
      StoreTo(op.opt.store, addr, ReadGpr(op.rs2));
      SetDone(addr == cfg.tohost);
      threw := false;
    }

    method HandleAlu() returns (threw: bool)
      requires Valid()
      modifies Footprint()
      ensures Valid() && forall o | o in Footprint() :: o in old(Footprint()) || fresh(o)
      ensures threw == ExecAlu(cfg, old(View())).Threw?
      ensures !threw ==> View() == ExecAlu(cfg, old(View())).hart
    {
      hide Valid, View, Footprint, HartSpec.WriteGpr, FallThrough;
      var op := Decoded();
      if !op.opt.AluType? { return true; }
      var opd1 := if op.usePc then Pc() else ReadGpr(op.rs1);
      var opd2 := if op.hasImm then op.imm else ReadGpr(op.rs2);
      var res := cfg.alu(op.opt.alu, opd1, opd2);
      if op.opt.alu.Jal? || op.opt.alu.Jalr? {
        WriteGpr(op.rd, FallThrough(Pc(), op));
        SetPc(res);
      } else {
        WriteGpr(op.rd, res);
      }
      threw := false;
    }

    method HandleCsr() returns (threw: bool)
      requires Valid()
      modifies Footprint()
      ensures Valid() && forall o | o in Footprint() :: o in old(Footprint()) || fresh(o)
      ensures threw == ExecCsr(cfg, old(View())).Threw?
      ensures !threw ==> View() == ExecCsr(cfg, old(View())).hart
    {
      hide Valid, View, Footprint, HartSpec.WriteGpr, HartSpec.WriteCsr, Exception, At, CanWrite, CanRead, SetBits,
        ClearBits, Zimm;
      var op := Decoded();
      if !op.opt.SysType? { return true; }
      var sys, addr := op.opt.sys, At(op.imm);
      threw := false;
      var tmp: word := 0;
      if sys != Csrrwi || op.rd != 0 {
        if CanRead(Mode(), addr) {
          if addr >= 4096 { return true; }
          tmp := ReadCsr(addr);
        } else {
          Trap(InstIllegal);
          return;
        }
      }
      ghost var h := View();
      assert CsrReads(op, sys) ==> tmp == h.csrs.value[addr];
      if sys == Csrrw || (sys == Csrrs && op.rs1 != 0) || (sys == Csrrc && op.rs1 != 0) {
        if CanRead(Mode(), op.rs1) {
          var operand := ReadGpr(op.rs1);
          if sys == Csrrs { operand := SetBits(tmp, operand); }
          if sys == Csrrc { operand := ClearBits(tmp, operand); }
          if CanWrite(Mode(), addr) {
            if addr % 0x1_0000 >= 4096 { return true; }
            WriteCsr(addr % 0x1_0000, operand);
          } else {
            Trap(InstIllegal);
            return;
          }
        } else {
          Trap(InstIllegal);
          return;
        }
      }
      if sys == Csrrwi || sys == Csrrsi || sys == Csrrci {
        var operand := Zimm(op);
        if sys == Csrrsi { operand := SetBits(tmp, operand); }
        if sys == Csrrci { operand := ClearBits(tmp, operand); }
        if CanWrite(Mode(), addr) {
          if addr % 0x1_0000 >= 4096 { return true; }
          WriteCsr(addr % 0x1_0000, operand);
        } else {
          Trap(InstIllegal);
          return;
        }
      }
      WriteGpr(op.rd, tmp);
    }

    method HandleMret()
      requires Valid()
      modifies Footprint()
      ensures Valid() && forall o | o in Footprint() :: o in old(Footprint()) || fresh(o)
      ensures View() == ExecMret(old(View()))
    {
      hide Valid, View, Footprint, HartSpec.WriteCsr, PopStatus, PreviousPrivilege, AssignBit, TestBit;
      var mstat := ReadCsr(MSTATUS);
      PopAssignments(mstat);
      PrivilegeBits(mstat);
      var pp := (if TestBit(mstat, MPP_HIGH) then 2 else 0) + (if TestBit(mstat, MPP_LOW) then 1 else 0);
      mstat := AssignBit(mstat, STATUS_MIE, TestBit(mstat, STATUS_MPIE));
      mstat := AssignBit(mstat, STATUS_MPIE, true);
      mstat := AssignBit(mstat, MPP_LOW, true);
      mstat := AssignBit(mstat, MPP_HIGH, true);
      WriteCsr(MSTATUS, mstat);
      MepcKept(View().csrs, mstat, old(View()).csrs);
      SetPc(ReadCsr(MEPC));
      SetMode(pp);
    }

    /** exec */
    method Execute() returns (threw: bool)
      requires Valid()
      modifies Footprint()
      ensures Valid() && forall o | o in Footprint() :: o in old(Footprint()) || fresh(o)
      ensures threw == Exec(cfg, old(View())).Threw?
      ensures !threw ==> View() == Exec(cfg, old(View())).hart
    {
      hide Valid, View, Footprint, ExecAlu, ExecBranch, ExecCsr, ExecLoad, ExecMret, ExecStore, Exception;
      threw := false;
      match Decoded().tgt {
        case StoreTarget => threw := HandleStore();
        case AluTarget => threw := HandleAlu();
        case LoadTarget => threw := HandleLoad();
        case BranchTarget => threw := HandleBranch();
        case CsrTarget => threw := HandleCsr();
        case Mret => HandleMret();
        case Ecall => Trap(EcallCause(Mode()));
        case Illegal => Trap(InstIllegal);
        case Ebreak => Trap(Breakpoint);
      }
    }

    // ----- rounds

    method FetchInstruction()
      requires Valid()
      modifies Footprint()
      ensures Valid() && forall o | o in Footprint() :: o in old(Footprint()) || fresh(o)
      ensures View() == old(View()).(dec := Fetch(cfg, old(View())))
    {
      var x := mem.PageRead32(At(pc));
      dec := if x & 3 != 3 then cfg.decode16(x) else cfg.decode(x);
    }

    method Step() returns (threw: bool)
      requires Valid()
      modifies Footprint()
      ensures Valid() && forall o | o in Footprint() :: o in old(Footprint()) || fresh(o)
      ensures threw == HartSpec.Step(cfg, old(View())).Threw?
      ensures !threw ==> View() == HartSpec.Step(cfg, old(View())).hart
    {
      hide Valid, View, Footprint, Fetch, Exec, Exception, FallThrough, ValidPc;
      FetchInstruction();
      SetPc(FallThrough(Pc(), Decoded()));
      if !ValidPc(cfg, Pc()) {
        Trap(InstAccessFault);
      }
      threw := Execute();
    }

    method Commit()
      requires Valid()
      modifies Footprint()
      ensures Valid() && forall o | o in Footprint() :: o in old(Footprint()) || fresh(o)
      ensures View() == HartSpec.Commit(cfg, old(View()))
    {
      hide Valid, View, Footprint, HartSpec.InterruptPending;
      UpdatePc();
      InterruptPending();
      ClearStaged();
    }

    method InterruptPending()
      requires Valid()
      modifies Footprint()
      ensures Valid() && forall o | o in Footprint() :: o in old(Footprint()) || fresh(o)
      ensures View() == HartSpec.InterruptPending(cfg, old(View()))
    {
      hide Valid, View, Footprint, TimerAsserted, TimerTrap, HartSpec.SetPending;
      var asserted := Compare();
      if asserted {
        SetPending();
        Trap(TimerM);
      }
    }

    method Compare() returns (asserted: bool)
      requires Valid()
      ensures asserted == TimerAsserted(cfg, View().mem)
    {
      hide Valid, View, LoadDword, Exceeds;
      var time, compare := DwordAt(MtimeAddr()), DwordAt(MtimecmpAddr());
      asserted := cfg.mtiEnabled && Exceeds(time, compare);
    }

    method ClearStaged()
      requires Valid()
      modifies Footprint()
      ensures Valid() && forall o | o in Footprint() :: o in old(Footprint()) || fresh(o)
      ensures View() == HartSpec.ClearStaged(old(View()))
    {
      csrStaged, gprStaged := [], [];
    }
  }

  lemma MepcKept(after: Csrs, mstatus: word, before: Csrs)
    requires after == HartSpec.WriteCsr(before, MSTATUS, mstatus)
    ensures after.value[MEPC] == before.value[MEPC]
  {
  }

  ghost function AfterSavePc(cfg: Config, h: Hart, cause: TrapCause): Hart {
    var h1 := h.(csrs := HartSpec.WriteCsr(h.csrs, PrivCsr(h.mode, UEPC), SavedPc(h.pc.pc, cause)));
    if IsEcall(cause) then SysExit(cfg, h1) else h1
  }

  ghost function Entered(cfg: Config, h: Hart, cause: TrapCause): Hart {
    var c1 := HartSpec.WriteCsr(h.csrs, PrivCsr(h.mode, UCAUSE), Code(cause));
    var c2 := HartSpec.WriteCsr(c1, PrivCsr(h.mode, UTVAL), 0);
    var next := if cause == TimerM then TimerVector(h.csrs.value, h.mode) else TrapEntry(h.csrs.value, h.mode);
    AfterSavePc(cfg, h.(csrs := c2, pc := h.pc.(next := next)), cause)
  }

  lemma VectorKept(c: Csrs, mode: Privilege, mip: word, mstatus: word)
    ensures TimerVector(HartSpec.WriteCsr(HartSpec.WriteCsr(c, MIP, mip), MSTATUS, mstatus).value, mode)
        == TimerVector(c.value, mode)
  {
    hide Forward, BaseAddress;
  }

  lemma EnteredIs(cfg: Config, h: Hart, cause: TrapCause)
    ensures cause != TimerM ==> Entered(cfg, h, cause) == Exception(cfg, h, cause)
    ensures cause == TimerM ==>
              Entered(cfg, h, cause) == h.(csrs := TrapWrites(h.csrs, h.mode, h.pc.pc, TimerM),
                                           pc := h.pc.(next := TimerVector(h.csrs.value, h.mode)))
  {
    hide Code, SavedPc, SysExit, TimerVector, TrapEntry, HartSpec.WriteCsr, PrivCsr;
  }
}
