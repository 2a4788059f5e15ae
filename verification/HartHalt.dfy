/** When the simulation ends, and what tohost then holds. */
module HartHalt {
  import opened FlatMemory
  import opened SparseMemory
  import opened HartSpec
  import opened HartRuns

  /** The round executes a store at the tohost address. */
  predicate StoresToHost(cfg: Config, h: Hart) {
    var op := Fetch(cfg, h);
    op.tgt.StoreTarget? && At(DataAddress(h.gprs.x, op)) == cfg.tohost
  }

  /** The round executes ecall with sys_exit, 93, in a7. */
  predicate ExitCall(cfg: Config, h: Hart) {
    Fetch(cfg, h).tgt.Ecall? && h.gprs.x[17] == 93
  }

  lemma ExceptionMemory(cfg: Config, h: Hart, cause: TrapCause)
    ensures var r := Exception(cfg, h, cause);
      && (IsEcall(cause) && Exits(h.gprs.x) ==> r.done && r.mem == StoreWord(h.mem, cfg.tohost, h.gprs.x[10]))
      && (!(IsEcall(cause) && Exits(h.gprs.x)) ==> r.done == h.done && r.mem == h.mem)
  {
    hide StoreWord, TrapWrites, TrapEntry;
  }

  lemma ExecDone(cfg: Config, h: Hart)
    requires Exec(cfg, h).Ok? && !h.done
    ensures Exec(cfg, h).hart.done <==>
              (h.dec.tgt.StoreTarget? && At(DataAddress(h.gprs.x, h.dec)) == cfg.tohost)
                  || (h.dec.tgt.Ecall? && Exits(h.gprs.x))
  {
    hide Exception, Load, ShouldBranch, StoreValue, CsrDecision, CsrOperand, CsrOldValue, DataAddress, At,
      PreviousPrivilege, PopStatus;
    match h.dec.tgt {
      case CsrTarget => ExceptionMemory(cfg, h, InstIllegal);
      case Ecall => ExceptionMemory(cfg, h, EcallCause(h.mode));
      case Illegal => ExceptionMemory(cfg, h, InstIllegal);
      case Ebreak => ExceptionMemory(cfg, h, Breakpoint);
      case Mret =>
      case StoreTarget =>
      case AluTarget =>
      case LoadTarget =>
      case BranchTarget =>
    }
  }

  /** A round that starts not done ends done exactly when it executed a store at tohost or the exit call. */
  lemma HaltContract(cfg: Config, h: Hart)
    requires Round(cfg, h).Ok? && !h.done
    ensures Round(cfg, h).hart.done <==> StoresToHost(cfg, h) || ExitCall(cfg, h)
  {
    hide Exec, Advance, Fetch, Commit, At, DataAddress;
    AdvanceKeeps(cfg, h, Fetch(cfg, h));
    ExecDone(cfg, BeforeExec(cfg, h));
    CommitKeeps(cfg, Step(cfg, h).hart);
  }

  /** Nothing else ends a run: one that ends done contains such a round. */
  lemma {:induction false} DoneHasCause(cfg: Config, tr: seq<Hart>, k: nat)
    requires Run(cfg, tr) && k < |tr| && !tr[0].done && tr[k].done
    ensures exists i | 0 <= i < k :: StoresToHost(cfg, tr[i]) || ExitCall(cfg, tr[i])
  {
    hide Round, StoresToHost, ExitCall;
    assert k > 0 && Next(cfg, tr[k - 1], tr[k]);
    if tr[k - 1].done {
      DoneHasCause(cfg, tr, k - 1);
    } else {
      HaltContract(cfg, tr[k - 1]);
    }
  }

  lemma WordReadBack(m: Routed, a: Address, v: word)
    ensures LoadWord(StoreWord(m, a, v).pages, a) == v
  {
    hide LoadWord, Bytes32;
    PeekPoke(m.pages, a, Bytes32(v));
    Bytes32Injective(LoadWord(StoreWord(m, a, v).pages, a), v);
  }

  /** tohost(): read32 at the tohost address. */
  function ToHost(cfg: Config, h: Hart): word { LoadWord(h.mem.pages, cfg.tohost) }

  /** After the exit call tohost() is a0, even when tohost straddles pages or the end of the address space. */
  lemma ExitCode(cfg: Config, h: Hart)
    requires ExitCall(cfg, h)
    ensures Round(cfg, h).Ok? && ToHost(cfg, Round(cfg, h).hart) == h.gprs.x[10]
  {
    hide Advance, Fetch, Commit, Exception, EcallCause, StoreWord, LoadWord;
    var b := BeforeExec(cfg, h);
    AdvanceKeeps(cfg, h, Fetch(cfg, h));
    EcallCauses(h.mode);
    ExceptionMemory(cfg, b, EcallCause(b.mode));
    WordReadBack(b.mem, cfg.tohost, h.gprs.x[10]);
    CommitKeeps(cfg, Step(cfg, h).hart);
  }

  /** After a word store at tohost, tohost() is the stored register. */
  lemma WordStoredToHost(cfg: Config, h: Hart)
    requires StoresToHost(cfg, h) && Fetch(cfg, h).opt == StoreType(Sw)
    ensures Round(cfg, h).Ok? && ToHost(cfg, Round(cfg, h).hart) == h.gprs.x[Fetch(cfg, h).rs2]
  {
    hide Exec, Advance, Fetch, Commit, StoreWord, LoadWord, At, DataAddress;
    var b := BeforeExec(cfg, h);
    AdvanceKeeps(cfg, h, Fetch(cfg, h));
    WordStore(cfg, b);
    WordReadBack(b.mem, cfg.tohost, h.gprs.x[b.dec.rs2]);
    CommitKeeps(cfg, Step(cfg, h).hart);
  }

  lemma WordStore(cfg: Config, h: Hart)
    requires h.dec.tgt.StoreTarget? && h.dec.opt == StoreType(Sw)
    ensures Exec(cfg, h).Ok? && Exec(cfg, h).hart.mem
        == StoreWord(h.mem, At(DataAddress(h.gprs.x, h.dec)), h.gprs.x[h.dec.rs2])
  {
    hide StoreWord, At, DataAddress;
  }

  lemma EcallCauses(mode: Privilege)
    ensures IsEcall(EcallCause(mode))
  {
  }
}
