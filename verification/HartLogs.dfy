/** The staged logs: they record every write of a round, in order, and suffice to redo and to undo it. */
module HartLogs {
  import opened FlatMemory
  import opened HartSpec
  import opened HartRuns

  // ----- redoing and undoing a log with the plain writes

  function ReplayCsrs(c: CsrFile, log: seq<CsrChange>): CsrFile {
    if log == [] then c
    else
      var last := log[|log| - 1];
      ReplayCsrs(c, log[..|log| - 1])[last.index := last.next]
  }

  function UndoCsrs(c: CsrFile, log: seq<CsrChange>): CsrFile
    decreases |log|
  {
    if log == [] then c
    else
      var last := log[|log| - 1];
      UndoCsrs(c[last.index := last.prev], log[..|log| - 1])
  }

  function ReplayGprs(x: RegFile, log: seq<GprChange>): RegFile {
    if log == [] then x
    else
      var last := log[|log| - 1];
      SetReg(ReplayGprs(x, log[..|log| - 1]), last.index, last.next)
  }

  function UndoGprs(x: RegFile, log: seq<GprChange>): RegFile
    decreases |log|
  {
    if log == [] then x
    else
      var last := log[|log| - 1];
      UndoGprs(SetReg(x, last.index, last.prev), log[..|log| - 1])
  }

  /** The log leads from the old file to the new one, and back. */
  predicate CsrsLogged(before: CsrFile, c: Csrs) {
    ReplayCsrs(before, c.staged) == c.value && UndoCsrs(c.value, c.staged) == before
  }

  predicate GprsLogged(before: RegFile, g: Gprs) {
    ReplayGprs(before, g.staged) == g.x && UndoGprs(g.x, g.staged) == before
  }

  lemma WriteCsrLogged(before: CsrFile, c: Csrs, index: CsrIndex, v: word)
    requires CsrsLogged(before, c)
    ensures CsrsLogged(before, WriteCsr(c, index, v))
  {
    var r := WriteCsr(c, index, v);
    assert r.staged[..|r.staged| - 1] == c.staged;
    assert r.value[index := c.value[index]] == c.value;
  }

  lemma WriteGprLogged(before: RegFile, g: Gprs, index: RegIndex, v: word)
    requires GprsLogged(before, g)
    ensures GprsLogged(before, WriteGpr(g, index, v))
  {
    var r := WriteGpr(g, index, v);
    assert r.staged[..|r.staged| - 1] == g.staged;
    assert SetReg(r.x, index, g.x[index]) == g.x;
  }

  lemma TrapWritesLogged(before: CsrFile, c: Csrs, mode: Privilege, pc: word, cause: TrapCause)
    requires CsrsLogged(before, c)
    ensures CsrsLogged(before, TrapWrites(c, mode, pc, cause))
  {
    var c1 := WriteCsr(c, PrivCsr(mode, UCAUSE), Code(cause));
    var c2 := WriteCsr(c1, PrivCsr(mode, UTVAL), 0);
    WriteCsrLogged(before, c, PrivCsr(mode, UCAUSE), Code(cause));
    WriteCsrLogged(before, c1, PrivCsr(mode, UTVAL), 0);
    WriteCsrLogged(before, c2, PrivCsr(mode, UEPC), SavedPc(pc, cause));
  }

  lemma CsrInstructionKind(cfg: Config, h: Hart)
    requires ExecCsr(cfg, h).Ok?
    ensures h.dec.opt.SysType?
  {
    hide CsrDecision, CsrOperand, CsrOldValue, Exception;
  }

  lemma CsrInstructionLogged(cfg: Config, h: Hart, before: CsrFile)
    requires ExecCsr(cfg, h).Ok? && CsrsLogged(before, h.csrs)
    ensures CsrsLogged(before, ExecCsr(cfg, h).hart.csrs)
  {
    hide ExecCsr, CsrsLogged, TrapWrites, HartSpec.WriteCsr, CsrDecision, CanWrite;
    CsrInstructionKind(cfg, h);
    CsrInstructionFrame(cfg, h);
    TrapWritesLogged(before, h.csrs, h.mode, h.pc.pc, InstIllegal);
    var r := ExecCsr(cfg, h).hart;
    match CsrDecision(h.dec, h.dec.opt.sys, h.mode, At(h.dec.imm)) {
      case CsrWrites(index) =>
        var v :| r.csrs == HartSpec.WriteCsr(h.csrs, index, v);
        WriteCsrLogged(before, h.csrs, index, v);
      case _ =>
    }
  }

  lemma ExceptionLogged(cfg: Config, h: Hart, cause: TrapCause, before: CsrFile)
    requires CsrsLogged(before, h.csrs)
    ensures CsrsLogged(before, Exception(cfg, h, cause).csrs)
  {
    hide Exception, CsrsLogged, TrapWrites;
    ExceptionFrame(cfg, h, cause);
    TrapWritesLogged(before, h.csrs, h.mode, h.pc.pc, cause);
  }

  lemma ExecCsrsLogged(cfg: Config, h: Hart, before: CsrFile)
    requires Exec(cfg, h).Ok? && CsrsLogged(before, h.csrs)
    ensures CsrsLogged(before, Exec(cfg, h).hart.csrs)
  {
    hide CsrsLogged, ExecCsr, Exception, HartSpec.WriteCsr;
    match h.dec.tgt {
      case CsrTarget => CsrInstructionLogged(cfg, h, before);
      case Ecall => ExceptionLogged(cfg, h, EcallCause(h.mode), before);
      case Illegal => ExceptionLogged(cfg, h, InstIllegal, before);
      case Ebreak => ExceptionLogged(cfg, h, Breakpoint, before);
      case Mret => WriteCsrLogged(before, h.csrs, MSTATUS, PopStatus(h.csrs.value[MSTATUS]));
      case StoreTarget =>
      case AluTarget =>
      case LoadTarget =>
      case BranchTarget =>
    }
  }

  /** An instruction writes the register file not at all, or once, at rd. */
  lemma ExecGprs(cfg: Config, h: Hart)
    requires Exec(cfg, h).Ok?
    ensures var g := Exec(cfg, h).hart.gprs; g == h.gprs || exists v :: g == WriteGpr(h.gprs, h.dec.rd, v)
  {
    match h.dec.tgt {
      case CsrTarget => ExceptionFrame(cfg, h, InstIllegal);
      case Ecall => ExceptionFrame(cfg, h, EcallCause(h.mode));
      case Illegal => ExceptionFrame(cfg, h, InstIllegal);
      case Ebreak => ExceptionFrame(cfg, h, Breakpoint);
      case Mret =>
      case StoreTarget =>
      case AluTarget =>
      case LoadTarget =>
      case BranchTarget =>
    }
  }

  // ----- rounds and runs

  predicate StartOfRound(h: Hart) {
    h.csrs.staged == [] && h.gprs.staged == [] && h.gprs.x[0] == 0
  }

  /** After a step, replaying the staged logs over the old files gives the new files, and writing the previous
      values back in reverse gives the old files again. */
  lemma StepIsLogged(cfg: Config, h: Hart)
    requires StartOfRound(h) && Step(cfg, h).Ok?
    ensures CsrsLogged(h.csrs.value, Step(cfg, h).hart.csrs)
    ensures GprsLogged(h.gprs.x, Step(cfg, h).hart.gprs)
    ensures Step(cfg, h).hart.gprs.x[0] == 0
  {
    var b := BeforeExec(cfg, h);
    AdvanceFrame(cfg, h, Fetch(cfg, h));
    assert CsrsLogged(h.csrs.value, h.csrs);
    TrapWritesLogged(h.csrs.value, h.csrs, h.mode, h.pc.pc, InstAccessFault);
    ExecCsrsLogged(cfg, b, h.csrs.value);
    ExecGprs(cfg, b);
    forall v ensures GprsLogged(h.gprs.x, WriteGpr(h.gprs, b.dec.rd, v)) {
      assert GprsLogged(h.gprs.x, h.gprs);
      WriteGprLogged(h.gprs.x, h.gprs, b.dec.rd, v);
    }
  }

  /** Every round of a run starts with empty logs, and x0 is zero throughout. */
  lemma {:induction false} RoundsStartClean(cfg: Config, tr: seq<Hart>, k: nat)
    requires Run(cfg, tr) && k < |tr| && StartOfRound(tr[0])
    ensures StartOfRound(tr[k])
  {
    if k > 0 {
      RoundsStartClean(cfg, tr, k - 1);
      if Round(cfg, tr[k - 1]) == Ok(tr[k]) {
        StepIsLogged(cfg, tr[k - 1]);
        CommitFrame(cfg, Step(cfg, tr[k - 1]).hart);
      } else {
        assert Next(cfg, tr[k - 1], tr[k]);
      }
    }
  }

  /** A CSR that is not in the log of a round's step keeps its value over the step. */
  lemma {:induction false} UnloggedUnchanged(c: CsrFile, log: seq<CsrChange>, a: CsrIndex)
    requires forall e | e in log :: e.index != a
    ensures ReplayCsrs(c, log)[a] == c[a]
  {
    if log != [] {
      UnloggedUnchanged(c, log[..|log| - 1], a);
      assert log[|log| - 1] in log;
    }
  }
}
