/** When the timer interrupt is asserted over a run: what the program stored decides, and the counter never does. */
module HartTimer {
  import opened FlatMemory
  import opened SparseMemory
  import opened HartSpec
  import opened HartRuns
  import opened HartInterrupts
  import opened HartMemory
  import opened HartStores
  import opened HartEffects

  /** At every point of a run the interrupt is asserted exactly when the stores executed so far have left, at the
      two addresses, a first value above the second; the ticks do not enter. */
  lemma AssertedOverRun(cfg: Config, tr: seq<Hart>, k: nat)
    requires Run(cfg, tr) && k < |tr|
    ensures var m, pages := tr[0].mem, StoreAll(tr[0].mem.pages, Executed(cfg, tr, k));
      TimerAsserted(cfg, tr[k].mem)
      <==> cfg.mtiEnabled && DwordAt(pages, m.mtimeAddr) > DwordAt(pages, m.mtimecmpAddr)
  {
    hide DwordAt, TimerAsserted, StoreAll, Executed, Round;
    AssertedIff(cfg, tr[k].mem);
    RunPages(cfg, tr, k);
  }

  // ----- a program that does not write mtime

  /** The eight page bytes at mtime. */
  predicate MtimeIsZero(m: Routed) {
    forall i | 0 <= i < 8 :: m.pages[Plus(m.mtimeAddr, i)] == 0
  }

  /** None of the stores lands on them. */
  predicate SparesMtime(m: Routed, history: seq<Store>) {
    forall s, i | s in history && 0 <= i < 8 :: LandsOn(s.at, |s.bytes|, Plus(m.mtimeAddr, i)) < 0
  }

  lemma ZeroWord(m: Flat, a: Address)
    requires forall i | 0 <= i < 4 :: m[Plus(a, i)] == 0
    ensures LoadWord(m, a) == 0
  {
    assert Peek(m, a, 4) == [0, 0, 0, 0];
    ZeroJoin();
  }

  lemma ZeroJoin()
    ensures Join32([0, 0, 0, 0]) == 0
  {
  }

  lemma ZeroDword(m: Flat, a: Address)
    requires forall i | 0 <= i < 8 :: m[Plus(a, i)] == 0
    ensures LoadDword(m, a) == 0
  {
    hide LoadWord;
    ZeroWord(m, a);
    forall i | 0 <= i < 4 ensures m[Plus(Plus(a, 4), i)] == 0 {
      PlusPlus(a, 4, i);
    }
    ZeroWord(m, Plus(a, 4));
  }

  lemma NothingExceeds(compare: dword)
    ensures !Exceeds(0, compare)
  {
  }

  lemma ZeroIsNotAsserted(cfg: Config, m: Routed)
    requires MtimeIsZero(m)
    ensures !TimerAsserted(cfg, m)
  {
    hide LoadDword, Exceeds;
    ZeroDword(m.pages, m.mtimeAddr);
    NothingExceeds(LoadDword(m.pages, m.mtimecmpAddr));
  }

  lemma {:induction false} SparedByte(m: Flat, history: seq<Store>, x: Address)
    requires forall s | s in history :: LandsOn(s.at, |s.bytes|, x) < 0
    ensures LastWritten(m, history, x) == m[x]
    decreases |history|
  {
    if history != [] {
      var last := history[|history| - 1];
      assert last in history;
      SparedByte(m, history[..|history| - 1], x);
    }
  }

  lemma MtimeStaysZero(cfg: Config, tr: seq<Hart>, k: nat)
    requires Run(cfg, tr) && k < |tr| && MtimeIsZero(tr[0].mem) && SparesMtime(tr[0].mem, Executed(cfg, tr, k))
    ensures MtimeIsZero(tr[k].mem)
  {
    hide Executed, StoreAll, LastWritten, LandsOn, Round;
    RunPages(cfg, tr, k);
    forall i | 0 <= i < 8 ensures tr[k].mem.pages[Plus(tr[k].mem.mtimeAddr, i)] == 0 {
      var x := Plus(tr[0].mem.mtimeAddr, i);
      LastWriteWins(tr[0].mem.pages, Executed(cfg, tr, k), x);
      SparedByte(tr[0].mem.pages, Executed(cfg, tr, k), x);
    }
  }

  lemma RoundMemory(cfg: Config, h: Hart)
    requires Round(cfg, h).Ok?
    ensures Step(cfg, h).Ok? && Round(cfg, h).hart.mem == Step(cfg, h).hart.mem
  {
    hide Step, Commit;
    CommitKeeps(cfg, Step(cfg, h).hart);
  }

  /** A program whose mtime starts at zero and that never stores there, as the timer program of the runtime never
      does, is never interrupted by the timer, whatever it stores in mtimecmp and however often the thread ticks. */
  lemma NeverInterrupted(cfg: Config, tr: seq<Hart>, k: nat)
    requires Run(cfg, tr) && k < |tr| && MtimeIsZero(tr[0].mem) && SparesMtime(tr[0].mem, Executed(cfg, tr, k))
    ensures !TimerAsserted(cfg, tr[k].mem)
    ensures k > 0 && Round(cfg, tr[k - 1]) == Ok(tr[k]) ==> !InterruptTaken(cfg, tr[k - 1])
  {
    hide Executed, TimerAsserted, MtimeIsZero, SparesMtime, Round, Step, TakesTimer;
    MtimeStaysZero(cfg, tr, k);
    ZeroIsNotAsserted(cfg, tr[k].mem);
    if k > 0 && Round(cfg, tr[k - 1]) == Ok(tr[k]) {
      RoundMemory(cfg, tr[k - 1]);
    }
  }

  // ----- and exactly that

  /** The memory with other contents of the page bytes at mtimecmp. */
  function WithCompare(m: Routed, compare: seq<byte>): Routed { m.(pages := Poke(m.pages, m.mtimecmpAddr, compare)) }

  predicate Apart(m: Routed) {
    forall i, j | 0 <= i < 8 && 0 <= j < 8 :: Plus(m.mtimeAddr, i) != Plus(m.mtimecmpAddr, j)
  }

  lemma ComparePokes(m: Routed, compare: seq<byte>)
    requires |compare| == 8 && Apart(m)
    ensures forall i | 0 <= i < 8 ::
              WithCompare(m, compare).pages[Plus(m.mtimeAddr, i)] == m.pages[Plus(m.mtimeAddr, i)]
    ensures forall i | 0 <= i < 8 :: WithCompare(m, compare).pages[Plus(m.mtimecmpAddr, i)] == compare[i]
  {
    forall i | 0 <= i < 8
      ensures WithCompare(m, compare).pages[Plus(m.mtimeAddr, i)] == m.pages[Plus(m.mtimeAddr, i)]
      ensures WithCompare(m, compare).pages[Plus(m.mtimecmpAddr, i)] == compare[i]
    {
      PokeFrame(m.pages, m.mtimecmpAddr, compare, Plus(m.mtimeAddr, i));
      PokeHit(m.pages, m.mtimecmpAddr, compare, i);
    }
  }

  lemma SomethingExceeds(time: dword)
    requires time != 0
    ensures Exceeds(time, 0)
  {
  }

  lemma DwordZeroIff(m: Flat, a: Address)
    ensures LoadDword(m, a) == 0 <==> forall i | 0 <= i < 8 :: m[Plus(a, i)] == 0
  {
    hide LoadDword, LoadWord;
    if forall i | 0 <= i < 8 :: m[Plus(a, i)] == 0 {
      ZeroDword(m, a);
    }
    if LoadDword(m, a) == 0 {
      DwordHalves(m, a);
      WordBytes(m, a);
      WordBytes(m, Plus(a, 4));
      forall i | 0 <= i < 8 ensures m[Plus(a, i)] == 0 {
        if i >= 4 {
          PlusPlus(a, 4, i - 4);
        }
      }
    }
  }

  lemma DwordHalves(m: Flat, a: Address)
    requires LoadDword(m, a) == 0
    ensures LoadWord(m, a) == 0 && LoadWord(m, Plus(a, 4)) == 0
  {
    hide LoadWord;
    HalvesAreZero(LoadWord(m, a), LoadWord(m, Plus(a, 4)));
  }

  lemma HalvesAreZero(lo: word, hi: word)
    requires (lo as dword) | ((hi as dword) << 32) == 0
    ensures lo == 0 && hi == 0
  {
  }

  lemma WordBytes(m: Flat, a: Address)
    requires LoadWord(m, a) == 0
    ensures forall i | 0 <= i < 4 :: m[Plus(a, i)] == 0
  {
    assert Bytes32(LoadWord(m, a)) == Peek(m, a, 4);
    ZeroBytes();
    forall i | 0 <= i < 4 ensures m[Plus(a, i)] == 0 {
      assert Peek(m, a, 4)[i] == m[Plus(a, i)];
    }
  }

  lemma ZeroBytes()
    ensures Bytes32(0) == [0, 0, 0, 0]
  {
  }

  /** With the comparison enabled, there is a value to store in mtimecmp that asserts the interrupt exactly when the
      page bytes at mtime are not all zero. */
  lemma SilentIffZero(cfg: Config, m: Routed)
    requires cfg.mtiEnabled && Apart(m)
    ensures (forall compare | |compare| == 8 :: !TimerAsserted(cfg, WithCompare(m, compare))) <==> MtimeIsZero(m)
  {
    hide LoadDword, Exceeds, TimerAsserted, WithCompare, Poke;
    if MtimeIsZero(m) {
      forall compare | |compare| == 8
        ensures !TimerAsserted(cfg, WithCompare(m, compare))
      {
        ComparePokes(m, compare);
        KeepsAddresses(m, compare);
        ZeroIsNotAsserted(cfg, WithCompare(m, compare));
      }
    } else {
      var zeros := seq(8, _ => 0 as byte);
      ZeroCompareAsserts(cfg, m, zeros);
      assert TimerAsserted(cfg, WithCompare(m, zeros));
    }
  }

  lemma KeepsAddresses(m: Routed, compare: seq<byte>)
    ensures SameWindows(m, WithCompare(m, compare))
  {
    hide Poke;
  }

  lemma ZeroCompareAsserts(cfg: Config, m: Routed, zeros: seq<byte>)
    requires cfg.mtiEnabled && Apart(m) && !MtimeIsZero(m) && zeros == seq(8, _ => 0 as byte)
    ensures TimerAsserted(cfg, WithCompare(m, zeros))
  {
    hide LoadDword, Exceeds, WithCompare, Poke;
    var n := WithCompare(m, zeros);
    ComparePokes(m, zeros);
    KeepsAddresses(m, zeros);
    DwordZeroIff(n.pages, m.mtimeAddr);
    ZeroDword(n.pages, m.mtimecmpAddr);
    SomethingExceeds(LoadDword(n.pages, m.mtimeAddr));
  }

  // ----- the input that shows it

  /** A fresh memory after a single tick: the mtime window is above the mtimecmp window, as the program would read
      them, and the interrupt is not asserted. */
  lemma TickIsNotSeen(cfg: Config, h: Hart, mtime: Address, mtimecmp: Address)
    requires h.mem == RoutedMemory(mtime, mtimecmp, seq(0x1_0000_0000, _ => 0), seq(8, _ => 0), seq(8, _ => 0))
    ensures LittleEndian(Tick(h).mem.mtime) > LittleEndian(Tick(h).mem.mtimecmp)
    ensures !TimerAsserted(cfg, Tick(h).mem)
  {
    hide TimerAsserted;
    AllZero(Tick(h).mem.mtimecmp);
    OneTick();
    ZeroIsNotAsserted(cfg, Tick(h).mem);
  }

  lemma OneTick()
    ensures (0 as byte) + 1 == 1 && ((0 as byte) + 1) as int == 1
  {
  }

  lemma {:induction false} AllZero(bytes: seq<byte>)
    requires forall i | 0 <= i < |bytes| :: bytes[i] == 0
    ensures LittleEndian(bytes) == 0
  {
    if bytes != [] {
      AllZero(bytes[1..]);
    }
  }
}
