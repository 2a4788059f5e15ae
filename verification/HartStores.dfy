/** The memory of a run: what the stores its rounds executed have written, and what its loads return. */
module HartStores {
  import opened FlatMemory
  import opened SparseMemory
  import opened Arith
  import opened Alu
  import opened HartSpec
  import opened HartRuns
  import opened HartHalt
  import opened HartMemory

  /** What one round writes to the pages: its store, unless it is a byte inside a window, or the exit code. */
  function RoundStores(cfg: Config, h: Hart): seq<Store> {
    var op := Fetch(cfg, h);
    if op.tgt.StoreTarget? && op.opt.StoreType? then
      StoredAt(h.mem, op.opt.store, At(DataAddress(h.gprs.x, op)), h.gprs.x[op.rs2])
    else if ExitCall(cfg, h) then [Store(cfg.tohost, Bytes32(h.gprs.x[10]))]
    else []
  }

  function StoredAt(m: Routed, kind: StoreKind, a: Address, v: word): seq<Store> {
    if kind == Sb && (InWindow(m.mtimeAddr, a) || InWindow(m.mtimecmpAddr, a)) then []
    else [Store(a, Stored(StoreOp(kind, a, v)))]
  }

  predicate SameWindows(m: Routed, n: Routed) {
    n.mtimeAddr == m.mtimeAddr && n.mtimecmpAddr == m.mtimecmpAddr
  }

  lemma OneInHistory(m: Flat, s: Store)
    ensures StoreAll(m, [s]) == Poke(m, s.at, s.bytes)
  {
    hide Poke;
    var history := [s];
    assert history[..0] == [];
    assert StoreAll(m, history) == Poke(StoreAll(m, []), s.at, s.bytes);
  }

  lemma StorePages(m: Routed, kind: StoreKind, a: Address, v: word)
    ensures StoreValue(m, kind, a, v).pages == StoreAll(m.pages, StoredAt(m, kind, a, v))
    ensures SameWindows(m, StoreValue(m, kind, a, v))
  {
    hide Poke, Bytes16, Bytes32, InWindow, StoreAll;
    OneInHistory(m.pages, Store(a, Stored(StoreOp(kind, a, v))));
    if kind == Sb {
      PokeOne(m.pages, a, (v & 0xFF) as byte);
    }
    NoHistory(m.pages);
  }

  lemma NoHistory(m: Flat)
    ensures StoreAll(m, []) == m
  {
  }

  /** Any other instruction leaves the memory, the exit call apart. */
  lemma ExecKeepsMemory(cfg: Config, h: Hart)
    requires Exec(cfg, h).Ok? && !h.dec.tgt.StoreTarget?
    ensures Exec(cfg, h).hart.mem
         == if h.dec.tgt.Ecall? && Exits(h.gprs.x) then StoreWord(h.mem, cfg.tohost, h.gprs.x[10]) else h.mem
  {
    hide Exception, Load, ShouldBranch, CsrDecision, CsrOperand, CsrOldValue, PreviousPrivilege, PopStatus, StoreWord;
    match h.dec.tgt {
      case CsrTarget => ExceptionMemory(cfg, h, InstIllegal);
      case Ecall => EcallMemory(cfg, h);
      case Illegal => ExceptionMemory(cfg, h, InstIllegal);
      case Ebreak => ExceptionMemory(cfg, h, Breakpoint);
      case _ =>
    }
  }

  lemma EcallMemory(cfg: Config, h: Hart)
    ensures Exception(cfg, h, EcallCause(h.mode)).mem
        == if Exits(h.gprs.x) then StoreWord(h.mem, cfg.tohost, h.gprs.x[10]) else h.mem
  {
    hide Exception, EcallCause, StoreWord;
    EcallCauses(h.mode);
    ExceptionMemory(cfg, h, EcallCause(h.mode));
  }

  lemma ExecStores(cfg: Config, h: Hart)
    requires Exec(cfg, h).Ok? && h.dec.tgt.StoreTarget?
    ensures h.dec.opt.StoreType?
    ensures Exec(cfg, h).hart.mem
         == StoreValue(h.mem, h.dec.opt.store, At(DataAddress(h.gprs.x, h.dec)), h.gprs.x[h.dec.rs2])
  {
    hide StoreValue, At, DataAddress;
  }

  lemma WordPages(m: Routed, a: Address, v: word)
    ensures StoreWord(m, a, v).pages == StoreAll(m.pages, [Store(a, Bytes32(v))]) && SameWindows(m, StoreWord(m, a, v))
  {
    hide Poke, Bytes32, StoreAll;
    OneInHistory(m.pages, Store(a, Bytes32(v)));
  }

  /** A round changes the pages by its own stores and nothing else. */
  lemma RoundPages(cfg: Config, h: Hart)
    requires Round(cfg, h).Ok?
    ensures Round(cfg, h).hart.mem.pages == StoreAll(h.mem.pages, RoundStores(cfg, h))
    ensures SameWindows(h.mem, Round(cfg, h).hart.mem)
  {
    hide Exec, Advance, Fetch, Commit, StoreAll, StoredAt, StoreValue, StoreWord, At, DataAddress, Bytes32;
    var b := BeforeExec(cfg, h);
    AdvanceKeeps(cfg, h, Fetch(cfg, h));
    CommitKeeps(cfg, Step(cfg, h).hart);
    NoHistory(h.mem.pages);
    if b.dec.tgt.StoreTarget? {
      ExecStores(cfg, b);
      StorePages(h.mem, b.dec.opt.store, At(DataAddress(h.gprs.x, b.dec)), h.gprs.x[b.dec.rs2]);
    } else {
      ExecKeepsMemory(cfg, b);
      WordPages(h.mem, cfg.tohost, h.gprs.x[10]);
    }
  }

  // ----- runs

  /** The stores executed in the first k steps of a run. */
  function Executed(cfg: Config, tr: seq<Hart>, k: nat): seq<Store>
    requires k < |tr|
  {
    if k == 0 then []
    else Executed(cfg, tr, k - 1) + if Round(cfg, tr[k - 1]) == Ok(tr[k]) then RoundStores(cfg, tr[k - 1]) else []
  }

  lemma AtMostOneStore(cfg: Config, h: Hart)
    ensures |RoundStores(cfg, h)| <= 1
  {
    hide Stored, Fetch, Bytes32, InWindow;
  }

  lemma StoreAllAppend(m: Flat, front: seq<Store>, more: seq<Store>)
    requires |more| <= 1
    ensures StoreAll(m, front + more) == StoreAll(StoreAll(m, front), more)
  {
    hide Poke;
    if more == [] {
      assert front + more == front;
    } else {
      assert (front + more)[..|front|] == front;
      OneInHistory(StoreAll(m, front), more[0]);
      assert more == [more[0]];
    }
  }

  /** At every point of a run the pages hold what its stores have written, whatever the timer thread did. */
  lemma {:induction false} RunPages(cfg: Config, tr: seq<Hart>, k: nat)
    requires Run(cfg, tr) && k < |tr|
    ensures tr[k].mem.pages == StoreAll(tr[0].mem.pages, Executed(cfg, tr, k))
    ensures SameWindows(tr[0].mem, tr[k].mem)
  {
    hide Round, StoreAll, RoundStores;
    NoHistory(tr[0].mem.pages);
    if k > 0 {
      RunPages(cfg, tr, k - 1);
      if Round(cfg, tr[k - 1]) == Ok(tr[k]) {
        RoundPages(cfg, tr[k - 1]);
        AtMostOneStore(cfg, tr[k - 1]);
        StoreAllAppend(tr[0].mem.pages, Executed(cfg, tr, k - 1), RoundStores(cfg, tr[k - 1]));
      } else {
        assert Next(cfg, tr[k - 1], tr[k]);
        assert Executed(cfg, tr, k) == Executed(cfg, tr, k - 1);
      }
    }
  }

  /** The bytes a run has last written at the n addresses from a on. */
  function LastBytes(cfg: Config, tr: seq<Hart>, k: nat, a: Address, n: nat): (bytes: seq<byte>)
    requires k < |tr|
    ensures |bytes| == n
  {
    seq(n, i requires 0 <= i => LastWritten(tr[0].mem.pages, Executed(cfg, tr, k), Plus(a, i)))
  }

  /** A load instruction executed anywhere in a run, clear of the windows, writes to rd the extended little-endian
      value of the bytes the run has last written at its addresses. */
  lemma RunLoad(cfg: Config, tr: seq<Hart>, k: nat, kind: LoadKind)
    requires Run(cfg, tr) && k < |tr|
    requires Fetch(cfg, tr[k]).tgt.LoadTarget? && Fetch(cfg, tr[k]).opt == LoadType(kind) && Fetch(cfg, tr[k]).rd != 0
    requires LoadIsClear(tr[k].mem, kind, At(DataAddress(tr[k].gprs.x, Fetch(cfg, tr[k]))))
    ensures Round(cfg, tr[k]).Ok?
    ensures var a := At(DataAddress(tr[k].gprs.x, Fetch(cfg, tr[k])));
      Value(Round(cfg, tr[k]).hart.gprs.x[Fetch(cfg, tr[k]).rd])
          == Wrap(Meaning(kind, LastBytes(cfg, tr, k, a, Width(kind))))
  {
    hide Exec, Advance, Fetch, Commit, StoreAll, Meaning, Wrap, Value, Executed, LastWritten, LoadIsClear,
      DataAddress, Load;
    var h, op := tr[k], Fetch(cfg, tr[k]);
    var a := At(DataAddress(h.gprs.x, op));
    AdvanceKeeps(cfg, h, op);
    LoadWrites(cfg, BeforeExec(cfg, h));
    CommitKeeps(cfg, Step(cfg, h).hart);
    LoadMeaning(h.mem, kind, a);
    RunPages(cfg, tr, k);
    var bytes := LastBytes(cfg, tr, k, a, Width(kind));
    forall i | 0 <= i < Width(kind) ensures Peek(h.mem.pages, a, Width(kind))[i] == bytes[i] {
      LastWriteWins(tr[0].mem.pages, Executed(cfg, tr, k), Plus(a, i));
    }
    assert Peek(h.mem.pages, a, Width(kind)) == bytes;
  }

  lemma LoadWrites(cfg: Config, h: Hart)
    requires h.dec.tgt.LoadTarget? && h.dec.opt.LoadType? && h.dec.rd != 0
    ensures Exec(cfg, h).Ok?
    ensures Exec(cfg, h).hart.gprs.x[h.dec.rd] == Load(h.mem, h.dec.opt.load, At(DataAddress(h.gprs.x, h.dec)))
  {
    hide Load, At, DataAddress;
  }
}
