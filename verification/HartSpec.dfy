/** The hart as a value: what each step of the simulator computes from the state before it. The class Model
    (Model.dfy) is proved against these functions. */
module HartSpec {
  import opened FlatMemory
  import opened SparseMemory
  import opened Alu

  type RegIndex = x: int | 0 <= x < 32
  type CsrIndex = x: int | 0 <= x < 4096
  type RegFile = s: seq<word> | |s| == 32 witness seq(32, _ => 0)
  type CsrFile = s: seq<word> | |s| == 4096 witness seq(4096, _ => 0)

  datatype Target = LoadTarget | StoreTarget | AluTarget | BranchTarget | CsrTarget | Mret | Ecall | Illegal | Ebreak
  datatype LoadKind = Lb | Lh | Lw | Lbu | Lhu
  datatype StoreKind = Sb | Sh | Sw
  datatype BranchKind = Beq | Bne | Blt | Bltu | Bge | Bgeu
  datatype SysKind = Csrrw | Csrrs | Csrrc | Csrrwi | Csrrsi | Csrrci | OtherSys

  /** op_type, a std::variant. */
  datatype OpType = NoType | AluType(alu: AluOp) | LoadType(load: LoadKind) | StoreType(store: StoreKind)
                  | BranchType(branch: BranchKind) | SysType(sys: SysKind)

  /** The decoded instruction; the decoder may produce any value of this type. */
  datatype Op = Op(imm: word, opt: OpType, tgt: Target, rd: RegIndex, rs1: RegIndex, rs2: RegIndex,
                   hasImm: bool, usePc: bool, isCompressed: bool)

  datatype GprChange = GprChange(index: RegIndex, prev: word, next: word)
  datatype CsrChange = CsrChange(index: CsrIndex, prev: word, next: word)

  /** privilege: user 0, supervisor 1, hypervisor 2, machine 3. */
  type Privilege = m: int | 0 <= m < 4
  const MACHINE: Privilege := 3

  const MSTATUS: CsrIndex := 0x300
  const MIE: CsrIndex := 0x304
  const MEPC: CsrIndex := 0x341
  const MIP: CsrIndex := 0x344

  // The user-level CSRs that priv_csr shifts to the current privilege.
  const UTVEC: CsrIndex := 0x005
  const UEPC: CsrIndex := 0x041
  const UCAUSE: CsrIndex := 0x042
  const UTVAL: CsrIndex := 0x043

  /** The causes the simulator raises. */
  datatype TrapCause = InstAccessFault | InstIllegal | Breakpoint | EcallU | EcallHS | EcallVS | EcallM | TimerM

  /** What stays fixed over a run. alu is do_alu as compiled: see Faithful. */
  datatype Config = Config(decode: word -> Op, decode16: word -> Op, alu: (AluOp, word, word) -> word,
                           tohost: Address, mtiEnabled: bool,
                           allowedPcs: seq<(int, int)>)

  /** The compiled ALU computes what C++ defines; for shifts by 32 or more it may return anything. */
  ghost predicate Faithful(alu: (AluOp, word, word) -> word) {
    forall op, a, b | Defined(op, b) :: alu(op, a, b) == DoAlu(op, a, b)
  }

  /** program_counter: set writes next, update copies next into pc. */
  datatype ProgramCounter = ProgramCounter(pc: word, next: word)

  /** A register file with the changes staged in this round. */
  datatype Gprs = Gprs(x: RegFile, staged: seq<GprChange>)
  datatype Csrs = Csrs(value: CsrFile, staged: seq<CsrChange>)

  datatype Hart = Hart(pc: ProgramCounter, dec: Op, gprs: Gprs, csrs: Csrs, mode: Privilege, mem: Routed, done: bool)

  datatype Outcome = Ok(hart: Hart) | Threw

  // ----- privileged_mode

  function Priv(addr: int): Privilege { addr / 0x100 % 4 }
  predicate ReadOnly(addr: int) { addr / 0x400 % 4 == 3 }
  predicate CanRead(mode: Privilege, addr: int) { Priv(addr) <= mode }
  predicate CanWrite(mode: Privilege, addr: int) { !ReadOnly(addr) && Priv(addr) <= mode }

  /** base | c with base = mode << 8: no bit of c reaches the base. */
  function PrivCsr(mode: Privilege, c: CsrIndex): CsrIndex
    requires c < 0x100
  {
    mode * 0x100 + c
  }

  // ----- logged writes

  function WriteGpr(g: Gprs, index: RegIndex, v: word): Gprs {
    Gprs(SetReg(g.x, index, v), g.staged + [GprChange(index, g.x[index], v)])
  }

  /** The plain register write: x0 stays as it is. */
  function SetReg(x: RegFile, index: RegIndex, v: word): RegFile {
    if index == 0 then x else x[index := v]
  }

  function WriteCsr(c: Csrs, index: CsrIndex, v: word): Csrs {
    Csrs(c.value[index := v], c.staged + [CsrChange(index, c.value[index], v)])
  }

  // ----- traps

  function Code(cause: TrapCause): word {
    match cause
    case InstAccessFault => 0x1
    case InstIllegal => 0x2
    case Breakpoint => 0x3
    case EcallU => 0x8
    case EcallHS => 0x9
    case EcallVS => 0x10
    case EcallM => 0x11
    case TimerM => 0x8000_0007
  }

  const TIMER_BIT: word := 0x80          // bit 7 of mie and mip
  const STATUS_MIE: word := 0x8
  const STATUS_MPIE: word := 0x80
  const STATUS_MPP: word := 0x1800

  /** Both the local and the global enable are on and the interrupt is pending. */
  predicate TakesTimer(c: CsrFile) {
    c[MIE] & TIMER_BIT != 0 && c[MIP] & TIMER_BIT != 0 && c[MSTATUS] & STATUS_MIE != 0
  }

  function Raise(mip: word): word { mip | TIMER_BIT }
  function Clear(mip: word): word { mip & 0xFFFF_FF7F }

  /** MPP := machine, MPIE := MIE, MIE := 0. */
  function PushStatus(s: word): word {
    ((s | STATUS_MPP) & 0xFFFF_FF77) | ((s & STATUS_MIE) << 4)
  }

  /** MIE := MPIE, MPIE := 1, MPP := machine. */
  function PopStatus(s: word): word {
    (s & 0xFFFF_FFF7) | STATUS_MPIE | STATUS_MPP | ((s & STATUS_MPIE) >> 4)
  }

  function PreviousPrivilege(s: word): Privilege {
    (if s & 0x1000 != 0 then 2 else 0) + (if s & 0x800 != 0 then 1 else 0)
  }

  function SetPending(c: Csrs): Csrs {
    WriteCsr(c, MIP, Raise(c.value[MIP]))
  }

  predicate IsEcall(cause: TrapCause) { cause.EcallU? || cause.EcallHS? || cause.EcallVS? || cause.EcallM? }

  /** n bytes further on, modulo 2^32. */
  function Forward(w: word, n: word): word { w + n }

  /** masks::tvec::base_addr */
  function BaseAddress(w: word): word { w & 0xFFFF_FFFC }

  /** The address left in the exception pc: for anything but ecall and ebreak it is the next word. */
  function SavedPc(pc: word, cause: TrapCause): word {
    if IsEcall(cause) || cause.Breakpoint? then BaseAddress(pc) else BaseAddress(Forward(BaseAddress(pc), 4))
  }

  /** The cause, value and pc registers of the current mode. */
  function TrapWrites(c: Csrs, mode: Privilege, pc: word, cause: TrapCause): Csrs {
    WriteCsr(WriteCsr(WriteCsr(c, PrivCsr(mode, UCAUSE), Code(cause)),
                      PrivCsr(mode, UTVAL), 0),
             PrivCsr(mode, UEPC), SavedPc(pc, cause))
  }

  function TrapEntry(c: CsrFile, mode: Privilege): word { BaseAddress(c[PrivCsr(mode, UTVEC)]) }

  /** Entry number 7 of the vector table, whatever the mode bits of tvec say. */
  function TimerVector(c: CsrFile, mode: Privilege): word { Forward(TrapEntry(c, mode), 28) }

  /** The CSR writes of a taken timer interrupt: the pending bit, the status stack, then those of every trap. */
  function TimerWrites(c: Csrs, mode: Privilege, pc: word): Csrs {
    TrapWrites(WriteCsr(WriteCsr(c, MIP, Clear(c.value[MIP])), MSTATUS, PushStatus(c.value[MSTATUS])),
               mode, pc, TimerM)
  }

  /** An interrupt is refused without a trace, or jumps at once to its vector. */
  function TimerTrap(h: Hart): Hart {
    if !TakesTimer(h.csrs.value) then h
    else
      var vector := TimerVector(h.csrs.value, h.mode);
      h.(csrs := TimerWrites(h.csrs, h.mode, h.pc.pc), pc := ProgramCounter(vector, vector))
  }

  function Exception(cfg: Config, h: Hart, cause: TrapCause): Hart {
    var h1 := h.(csrs := TrapWrites(h.csrs, h.mode, h.pc.pc, cause),
                 pc := h.pc.(next := TrapEntry(h.csrs.value, h.mode)));
    if IsEcall(cause) then SysExit(cfg, h1) else h1
  }

  /** ecall with 93 in a7: a0 is written to tohost and the simulation ends. */
  predicate Exits(x: RegFile) { x[17] == 93 }

  function SysExit(cfg: Config, h: Hart): Hart {
    if Exits(h.gprs.x) then h.(mem := StoreWord(h.mem, cfg.tohost, h.gprs.x[10]), done := true) else h
  }

  function EcallCause(mode: Privilege): TrapCause {
    if mode == 0 then EcallU else if mode == 1 then EcallVS else if mode == 2 then EcallHS else EcallM
  }

  // ----- memory accesses: bytes go through the router, wider accesses straight to the pages

  function At(w: word): Address { Value(w) }

  function StoreHalf(m: Routed, a: Address, v: half): Routed { m.(pages := Poke(m.pages, a, Bytes16(v))) }
  function StoreWord(m: Routed, a: Address, v: word): Routed { m.(pages := Poke(m.pages, a, Bytes32(v))) }

  function SignExtend8(b: byte): word { if b < 0x80 then b as word else (b as word) | 0xFFFF_FF00 }
  function SignExtend16(h: half): word { if h < 0x8000 then h as word else (h as word) | 0xFFFF_0000 }

  function Load(m: Routed, kind: LoadKind, a: Address): word {
    match kind
    case Lb => SignExtend8(RoutedByte(m, a))
    case Lh => SignExtend16(LoadHalf(m.pages, a))
    case Lw => LoadWord(m.pages, a)
    case Lbu => RoutedByte(m, a) as word
    case Lhu => LoadHalf(m.pages, a) as word
  }

  function StoreValue(m: Routed, kind: StoreKind, a: Address, v: word): Routed {
    match kind
    case Sb => StoreByte(m, a, (v & 0xFF) as byte)
    case Sh => StoreHalf(m, a, (v & 0xFFFF) as half)
    case Sw => StoreWord(m, a, v)
  }

  // ----- instructions

  function DataAddress(x: RegFile, op: Op): word { Forward(x[op.rs1], op.imm) }

  predicate ShouldBranch(a: word, b: word, kind: BranchKind) {
    match kind
    case Beq => a == b
    case Bne => a != b
    case Blt => Signed(a) < Signed(b)
    case Bltu => a < b
    case Bge => Signed(a) >= Signed(b)
    case Bgeu => a >= b
  }

  /** The bytes of an instruction. */
  function Length(op: Op): word { if op.isCompressed then 2 else 4 }

  /** The address after op: the link of a jump, and the next pc of anything that does not jump. */
  function FallThrough(pc: word, op: Op): word { Forward(pc, Length(op)) }
  function BranchAddress(pc: word, op: Op): word { Forward(op.imm, pc) }

  function ExecAlu(cfg: Config, h: Hart): Outcome {
    if !h.dec.opt.AluType? then Threw
    else
      var op := h.dec.opt.alu;
      var a := if h.dec.usePc then h.pc.pc else h.gprs.x[h.dec.rs1];
      var b := if h.dec.hasImm then h.dec.imm else h.gprs.x[h.dec.rs2];
      var res := cfg.alu(op, a, b);
      if op.Jal? || op.Jalr? then
        Ok(h.(gprs := WriteGpr(h.gprs, h.dec.rd, FallThrough(h.pc.pc, h.dec)), pc := h.pc.(next := res)))
      else
        Ok(h.(gprs := WriteGpr(h.gprs, h.dec.rd, res)))
  }

  function ExecLoad(h: Hart): Outcome {
    if !h.dec.opt.LoadType? then Threw
    else Ok(h.(gprs := WriteGpr(h.gprs, h.dec.rd, Load(h.mem, h.dec.opt.load, At(DataAddress(h.gprs.x, h.dec))))))
  }

  function ExecStore(cfg: Config, h: Hart): Outcome {
    if !h.dec.opt.StoreType? then Threw
    else
      var a := At(DataAddress(h.gprs.x, h.dec));
      Ok(h.(mem := StoreValue(h.mem, h.dec.opt.store, a, h.gprs.x[h.dec.rs2]), done := a == cfg.tohost))
  }

  function ExecBranch(h: Hart): Outcome {
    if !h.dec.opt.BranchType? then Threw
    else if ShouldBranch(h.gprs.x[h.dec.rs1], h.gprs.x[h.dec.rs2], h.dec.opt.branch) then
      Ok(h.(pc := h.pc.(next := BranchAddress(h.pc.pc, h.dec))))
    else
      Ok(h)
  }

  /** csrrwi with rd == 0 is the one form that does not read. */
  predicate CsrReads(op: Op, sys: SysKind) { sys != Csrrwi || op.rd != 0 }

  predicate CsrRegisterForm(op: Op, sys: SysKind) {
    sys == Csrrw || (sys == Csrrs && op.rs1 != 0) || (sys == Csrrc && op.rs1 != 0)
  }

  predicate CsrImmediateForm(sys: SysKind) { sys == Csrrwi || sys == Csrrsi || sys == Csrrci }

  /** The C++ logical not of a word. */
  function LogicalNot(w: word): word { if w == 0 then 1 else 0 }

  function SetBits(prev: word, mask: word): word { mask | prev }
  function ClearBits(prev: word, mask: word): word { prev & LogicalNot(mask) }

  /** The rs1 field of the immediate forms. */
  function Zimm(op: Op): word { op.rs1 as word }

  function CsrOperand(op: Op, x: RegFile, sys: SysKind, tmp: word): word {
    match sys
    case Csrrs => SetBits(tmp, x[op.rs1])
    case Csrrc => ClearBits(tmp, x[op.rs1])
    case Csrrwi => Zimm(op)
    case Csrrsi => SetBits(tmp, Zimm(op))
    case Csrrci => ClearBits(tmp, Zimm(op))
    case _ => x[op.rs1]
  }

  /** What a CSR instruction does: it throws (std::array::at, or a variant of the wrong kind), traps, only reads, or
      writes. */
  datatype CsrAction = CsrThrows | CsrTraps | CsrOnlyReads | CsrWrites(index: CsrIndex)

  function CsrDecision(op: Op, sys: SysKind, mode: Privilege, addr: Address): CsrAction {
    if CsrReads(op, sys) && !CanRead(mode, addr) then CsrTraps
    else if CsrReads(op, sys) && addr >= 4096 then CsrThrows
    else if !CsrRegisterForm(op, sys) && !CsrImmediateForm(sys) then CsrOnlyReads
    else if CsrRegisterForm(op, sys) && !CanRead(mode, op.rs1) then CsrTraps
    else if !CanWrite(mode, addr) then CsrTraps
    else if addr % 0x1_0000 >= 4096 then CsrThrows     // the write takes its index as a uint16_t
    else CsrWrites(addr % 0x1_0000)
  }

  function CsrOldValue(op: Op, c: CsrFile, sys: SysKind): word {
    if CsrReads(op, sys) && At(op.imm) < 4096 then c[At(op.imm)] else 0
  }

  function ExecCsr(cfg: Config, h: Hart): Outcome {
    if !h.dec.opt.SysType? then Threw
    else
      var sys, op := h.dec.opt.sys, h.dec;
      var tmp := CsrOldValue(op, h.csrs.value, sys);
      match CsrDecision(op, sys, h.mode, At(op.imm))
      case CsrThrows => Threw
      case CsrTraps => Ok(Exception(cfg, h, InstIllegal))
      case CsrOnlyReads => Ok(h.(gprs := WriteGpr(h.gprs, op.rd, tmp)))
      case CsrWrites(index) =>
        Ok(h.(csrs := WriteCsr(h.csrs, index, CsrOperand(op, h.gprs.x, sys, tmp)),
              gprs := WriteGpr(h.gprs, op.rd, tmp)))
  }

  function ExecMret(h: Hart): Hart {
    var s := h.csrs.value[MSTATUS];
    h.(csrs := WriteCsr(h.csrs, MSTATUS, PopStatus(s)), pc := h.pc.(next := h.csrs.value[MEPC]),
       mode := PreviousPrivilege(s))
  }

  function Exec(cfg: Config, h: Hart): Outcome {
    match h.dec.tgt
    case StoreTarget => ExecStore(cfg, h)
    case AluTarget => ExecAlu(cfg, h)
    case LoadTarget => ExecLoad(h)
    case BranchTarget => ExecBranch(h)
    case CsrTarget => ExecCsr(cfg, h)
    case Mret => Ok(ExecMret(h))
    case Ecall => Ok(Exception(cfg, h, EcallCause(h.mode)))
    case Illegal => Ok(Exception(cfg, h, InstIllegal))
    case Ebreak => Ok(Exception(cfg, h, Breakpoint))
  }

  // ----- rounds

  predicate ValidPc(cfg: Config, pc: word) {
    exists i | 0 <= i < |cfg.allowedPcs| :: cfg.allowedPcs[i].0 <= At(pc) <= cfg.allowedPcs[i].1
  }

  function Fetch(cfg: Config, h: Hart): Op {
    var x := LoadWord(h.mem.pages, At(h.pc.pc));
    if x & 3 != 3 then cfg.decode16(x) else cfg.decode(x)
  }

  /** Advance past op, and trap on a pc outside the program; op is executed all the same. */
  function Advance(cfg: Config, h: Hart, op: Op): Hart {
    var h1 := h.(dec := op, pc := h.pc.(next := FallThrough(h.pc.pc, op)));
    if ValidPc(cfg, h.pc.pc) then h1 else Exception(cfg, h1, InstAccessFault)
  }

  function BeforeExec(cfg: Config, h: Hart): Hart {
    Advance(cfg, h, Fetch(cfg, h))
  }

  function Step(cfg: Config, h: Hart): Outcome {
    Exec(cfg, BeforeExec(cfg, h))
  }

  predicate Exceeds(mtime: dword, mtimecmp: dword) { mtime > mtimecmp }

  /** The comparison is made on the page store: 64-bit reads do not go through the windows. */
  predicate TimerAsserted(cfg: Config, m: Routed) {
    cfg.mtiEnabled && Exceeds(LoadDword(m.pages, m.mtimeAddr), LoadDword(m.pages, m.mtimecmpAddr))
  }

  function InterruptPending(cfg: Config, h: Hart): Hart {
    if TimerAsserted(cfg, h.mem) then TimerTrap(h.(csrs := SetPending(h.csrs))) else h
  }

  function ClearStaged(h: Hart): Hart {
    h.(csrs := h.csrs.(staged := []), gprs := h.gprs.(staged := []))
  }

  function Commit(cfg: Config, h: Hart): Hart {
    ClearStaged(InterruptPending(cfg, h.(pc := h.pc.(pc := h.pc.next))))
  }

  function Round(cfg: Config, h: Hart): Outcome {
    var r := Step(cfg, h);
    if r.Threw? then Threw else Ok(Commit(cfg, r.hart))
  }

  /** One increment by the timer thread: a single byte, wrapping without carry. */
  function Tick(h: Hart): Hart {
    h.(mem := h.mem.(mtime := h.mem.mtime[0 := h.mem.mtime[0] + 1]))
  }

  ghost predicate Next(cfg: Config, h: Hart, h': Hart) {
    Round(cfg, h) == Ok(h') || h' == Tick(h)
  }
}
