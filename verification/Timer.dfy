/** The 64-bit timer registers as a 32-bit hart sees them: the high/low/high read loop and the three-store compare
    update, with the counter ticking between any two volatile accesses. */
module Timer {
  import opened Arith

  const TWO64: nat := 0x1_0000_0000_0000_0000
  const ALL_ONES: nat := 0xFFFF_FFFF
  const CLOCK_FREQ: nat := 100

  type u64 = x: int | 0 <= x < 0x1_0000_0000_0000_0000

  function HighWord(x: u64): u32 { x / TWO32 }
  function LowWord(x: u64): u32 { x % TWO32 }
  function Pair(high: u32, low: u32): u64 { high * TWO32 + low }

  /** counter(k) is the counter at the instant of the k-th volatile access: an interleaving is any such function
      whose high word never decreases. */
  ghost predicate Ticking(counter: nat -> u64) {
    forall j: nat, k: nat | j <= k :: HighWord(counter(j)) <= HighWord(counter(k))
  }

  /** mtime(): the loop ends for every interleaving, and the value returned is the whole counter at the instant of
      the accepted low-word read, the last access but one. */
  method Mtime(counter: nat -> u64, start: nat) returns (value: u64, next: nat)
    requires Ticking(counter)
    ensures next >= start + 3 && value == counter(next - 2)
    ensures next - start <= 3 * (HighWord(counter(next)) - HighWord(counter(start)) + 1)
  {
    next := start;
    var mtimehVal, mtimelVal, again: u32;
    while true
      invariant start <= next
      invariant next - start <= 3 * (HighWord(counter(next)) - HighWord(counter(start)))
      decreases TWO32 - HighWord(counter(next))
    {
      mtimehVal := HighWord(counter(next));
      mtimelVal := LowWord(counter(next + 1));
      again := HighWord(counter(next + 2));
      next := next + 3;
      if mtimehVal == again { break; }
    }
    value := Pair(mtimehVal, mtimelVal);
  }

  /** The mtimecmp registers, with every value the comparator has seen. */
  class Compare {
    var low: u32
    var high: u32
    var timerEnabled: bool
    ghost var seen: seq<u64>

    method StoreHigh(w: u32)
      modifies this
      ensures high == w && low == old(low) && timerEnabled == old(timerEnabled)
      ensures seen == old(seen) + [Pair(w, low)]
    {
      high := w;
      seen := seen + [Pair(high, low)];
    }

    method StoreLow(w: u32)
      modifies this
      ensures low == w && high == old(high) && timerEnabled == old(timerEnabled)
      ensures seen == old(seen) + [Pair(high, w)]
    {
      low := w;
      seen := seen + [Pair(high, low)];
    }

    /** timer(): the handler that moves the next interrupt 1000 ticks past the counter it read. */
    method Timer(counter: nat -> u64, start: nat) returns (next: nat)
      requires Ticking(counter)
      modifies this
      ensures next >= start + 3 && timerEnabled
      ensures Pair(high, low) == NextCompare(counter(next - 2))
      ensures seen == old(seen) + UpdateSequence(old(low), NextCompare(counter(next - 2)))
    {
      var now;
      now, next := Mtime(counter, start);
      var newMtimecmp := (now + CLOCK_FREQ * 10) % TWO64;
      StoreHigh(ALL_ONES);
      StoreLow(newMtimecmp % TWO32);
      StoreHigh(newMtimecmp / TWO32);
      timerEnabled := true;
    }
  }

  function NextCompare(now: u64): u64 { (now + 1000) % TWO64 }

  /** What the comparator sees after each of the three stores. */
  function UpdateSequence(oldLow: u32, target: u64): seq<u64> {
    [Pair(ALL_ONES, oldLow), Pair(ALL_ONES, LowWord(target)), target]
  }

  /** mtime > mtimecmp holds for the intermediate value but not for the target. */
  predicate Spurious(time: u64, seen: u64, target: u64) {
    time > seen && !(time > target)
  }

  /** At no instant after the first store can the update raise an interrupt the target would not raise, exactly when
      the target's high word is below all ones or the old low word is not below the new one. */
  lemma UpdateIsQuiet(oldLow: u32, target: u64)
    ensures (forall i, time: u64 | 0 <= i < 3 :: !Spurious(time, UpdateSequence(oldLow, target)[i], target))
       <==> (HighWord(target) < ALL_ONES || oldLow >= LowWord(target))
  {
    var s := UpdateSequence(oldLow, target);
    if HighWord(target) < ALL_ONES || oldLow >= LowWord(target) {
      assert s[0] >= target && s[1] >= target && s[2] >= target;
    } else {
      assert Spurious(target, s[0], target);
    }
  }

  /** Far enough from the end of the counter's range the handler is always quiet. */
  lemma HandlerIsQuiet(oldLow: u32, now: u64, i: nat, time: u64)
    requires HighWord(now) < ALL_ONES - 1 && i < 3
    ensures !Spurious(time, UpdateSequence(oldLow, NextCompare(now))[i], NextCompare(now))
    ensures NextCompare(now) == now + 1000
  {
    UpdateIsQuiet(oldLow, NextCompare(now));
  }

  /** Storing the low word first, without the all-ones guard, is not quiet: the order of the stores matters. */
  lemma GuardIsNeeded()
    ensures exists oldHigh: u32, target: u64, time: u64 ::
              oldHigh < HighWord(target) && Spurious(time, Pair(oldHigh, LowWord(target)), target)
  {
    assert HighWord(TWO32) == 1 && Spurious(1, Pair(0, LowWord(TWO32)), TWO32);
  }
}
