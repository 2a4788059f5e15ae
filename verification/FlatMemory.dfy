/** The reference memory: a total map from 32-bit addresses to bytes, and the little-endian byte decomposition of
    the 16, 32 and 64-bit values stored in it. */
module FlatMemory {
  type byte = bv8
  type half = bv16
  type word = bv32
  type dword = bv64

  type Address = a: int | 0 <= a < 0x1_0000_0000
  type Flat = m: seq<byte> | |m| == 0x1_0000_0000 ghost witness seq(0x1_0000_0000, _ => 0)

  const PAGE_SIZE: nat := 4096

  /** Address arithmetic wraps at 2^32. */
  function Plus(a: Address, n: nat): Address {
    (a + n) % 0x1_0000_0000
  }

  /** The n consecutive bytes from a on. */
  function Peek(m: Flat, a: Address, n: nat): (bytes: seq<byte>)
    ensures |bytes| == n
  {
    seq(n, k requires 0 <= k => m[Plus(a, k)])
  }

  /** Memory after storing the bytes one after the other from a on. */
  function Poke(m: Flat, a: Address, bytes: seq<byte>): Flat
    decreases |bytes|
  {
    if bytes == [] then m else Poke(m[a := bytes[0]], Plus(a, 1), bytes[1..])
  }

  // ----- little-endian decomposition

  function Bytes16(h: half): (bytes: seq<byte>)
    ensures |bytes| == 2
  {
    [(h & 0xFF) as byte, (h >> 8) as byte]
  }

  function Bytes32(w: word): (bytes: seq<byte>)
    ensures |bytes| == 4
  {
    [(w & 0xFF) as byte, ((w >> 8) & 0xFF) as byte, ((w >> 16) & 0xFF) as byte, (w >> 24) as byte]
  }

  function Bytes64(d: dword): seq<byte> {
    Bytes32((d & 0xFFFF_FFFF) as word) + Bytes32((d >> 32) as word)
  }

  function Join32(bytes: seq<byte>): word
    requires |bytes| == 4
  {
    Join(bytes[0], bytes[1], bytes[2], bytes[3])
  }

  function Join(b0: byte, b1: byte, b2: byte, b3: byte): word {
    (b0 as word) | ((b1 as word) << 8) | ((b2 as word) << 16) | ((b3 as word) << 24)
  }

  lemma Bytes32Injective(v: word, w: word)
    requires Bytes32(v) == Bytes32(w)
    ensures v == w
  {
    JoinBytes32(v);
    JoinBytes32(w);
  }

  lemma JoinBytes32(w: word)
    ensures Join32(Bytes32(w)) == w
  {
    assert (((w & 0xFF) as byte) as word) == w & 0xFF;
    assert (((w >> 8) & 0xFF) as byte) as word == (w >> 8) & 0xFF;
    assert (((w >> 16) & 0xFF) as byte) as word == (w >> 16) & 0xFF;
    assert ((w >> 24) as byte) as word == w >> 24;
    assert (w & 0xFF) | (((w >> 8) & 0xFF) << 8) | (((w >> 16) & 0xFF) << 16) | ((w >> 24) << 24) == w;
  }

  lemma BytesJoin32(bytes: seq<byte>)
    requires |bytes| == 4
    ensures Bytes32(Join32(bytes)) == bytes
  {
    hide Bytes32, Join;
    assert bytes == [bytes[0], bytes[1], bytes[2], bytes[3]];
    SplitJoined(bytes[0], bytes[1], bytes[2], bytes[3]);
  }

  lemma SplitJoined(b0: byte, b1: byte, b2: byte, b3: byte)
    ensures Bytes32(Join(b0, b1, b2, b3)) == [b0, b1, b2, b3]
  {
    hide Join;
    JoinByte0(b0, b1, b2, b3);
    JoinByte1(b0, b1, b2, b3);
    JoinByte2(b0, b1, b2, b3);
    JoinByte3(b0, b1, b2, b3);
  }

  lemma JoinByte0(b0: byte, b1: byte, b2: byte, b3: byte)
    ensures (Join(b0, b1, b2, b3) & 0xFF) as byte == b0
  {
  }

  lemma JoinByte1(b0: byte, b1: byte, b2: byte, b3: byte)
    ensures ((Join(b0, b1, b2, b3) >> 8) & 0xFF) as byte == b1
  {
  }

  lemma JoinByte2(b0: byte, b1: byte, b2: byte, b3: byte)
    ensures ((Join(b0, b1, b2, b3) >> 16) & 0xFF) as byte == b2
  {
  }

  lemma JoinByte3(b0: byte, b1: byte, b2: byte, b3: byte)
    ensures (Join(b0, b1, b2, b3) >> 24) as byte == b3
  {
  }

  // ----- little-endian values in memory

  function LoadHalf(m: Flat, a: Address): half {
    (m[a] as half) | ((m[Plus(a, 1)] as half) << 8)
  }

  function LoadWord(m: Flat, a: Address): (w: word)
    ensures Bytes32(w) == Peek(m, a, 4)
  {
    BytesJoin32(Peek(m, a, 4));
    Join32(Peek(m, a, 4))
  }

  function LoadDword(m: Flat, a: Address): dword {
    (LoadWord(m, a) as dword) | ((LoadWord(m, Plus(a, 4)) as dword) << 32)
  }

  // ----- what a store does, byte by byte

  lemma PlusPlus(a: Address, j: nat, k: nat)
    ensures Plus(Plus(a, j), k) == Plus(a, j + k)
  {
  }

  lemma {:induction false} PokeFrame(m: Flat, a: Address, bytes: seq<byte>, x: Address)
    requires forall k | 0 <= k < |bytes| :: x != Plus(a, k)
    ensures Poke(m, a, bytes)[x] == m[x]
    decreases |bytes|
  {
    if bytes != [] {
      assert x != Plus(a, 0);
      forall k | 0 <= k < |bytes| - 1 ensures x != Plus(Plus(a, 1), k) {
        PlusPlus(a, 1, k);
      }
      PokeFrame(m[a := bytes[0]], Plus(a, 1), bytes[1..], x);
    }
  }

  lemma {:induction false} PokeHit(m: Flat, a: Address, bytes: seq<byte>, k: nat)
    requires k < |bytes| <= 0x1_0000_0000
    ensures Poke(m, a, bytes)[Plus(a, k)] == bytes[k]
    decreases |bytes|
  {
    var m1 := m[a := bytes[0]];
    if k == 0 {
      forall j | 0 <= j < |bytes| - 1 ensures a != Plus(Plus(a, 1), j) {
        PlusPlus(a, 1, j);
      }
      PokeFrame(m1, Plus(a, 1), bytes[1..], a);
    } else {
      PlusPlus(a, 1, k - 1);
      PokeHit(m1, Plus(a, 1), bytes[1..], k - 1);
    }
  }

  /** A store is read back whole, wherever it lies: across pages and around the top of the address space. */
  lemma PeekPoke(m: Flat, a: Address, bytes: seq<byte>)
    requires |bytes| <= 0x1_0000_0000
    ensures Peek(Poke(m, a, bytes), a, |bytes|) == bytes
  {
    forall k | 0 <= k < |bytes| ensures Peek(Poke(m, a, bytes), a, |bytes|)[k] == bytes[k] {
      PokeHit(m, a, bytes, k);
    }
  }

  /** Two stores of consecutive bytes are one. */
  lemma {:induction false} PokeConcat(m: Flat, a: Address, b: seq<byte>, c: seq<byte>)
    ensures Poke(Poke(m, a, b), Plus(a, |b|), c) == Poke(m, a, b + c)
    decreases |b|
  {
    if b == [] {
      assert b + c == c;
    } else {
      PlusPlus(a, 1, |b| - 1);
      PokeConcat(m[a := b[0]], Plus(a, 1), b[1..], c);
      assert (b + c)[1..] == b[1..] + c;
    }
  }

  lemma PeekConcat(m: Flat, a: Address, j: nat, k: nat)
    ensures Peek(m, a, j) + Peek(m, Plus(a, j), k) == Peek(m, a, j + k)
  {
    forall i | 0 <= i < k ensures Peek(m, Plus(a, j), k)[i] == Peek(m, a, j + k)[j + i] {
      PlusPlus(a, j, i);
    }
  }

  /** A store that does not pass the top of the address space is an interval update. */
  lemma PokeInterval(m: Flat, a: Address, bytes: seq<byte>, x: Address)
    requires a + |bytes| <= 0x1_0000_0000
    ensures Poke(m, a, bytes)[x] == if a <= x < a + |bytes| then bytes[x - a] else m[x]
  {
    if a <= x < a + |bytes| {
      PokeHit(m, a, bytes, x - a);
    } else {
      PokeFrame(m, a, bytes, x);
    }
  }

  // ----- histories of stores

  datatype Store = Store(at: Address, bytes: seq<byte>)

  function StoreAll(m: Flat, history: seq<Store>): Flat {
    if history == [] then m
    else
      var last := history[|history| - 1];
      Poke(StoreAll(m, history[..|history| - 1]), last.at, last.bytes)
  }

  /** Distance from a up to x, around the top of the address space. */
  function Distance(a: Address, x: Address): Address {
    (x - a) % 0x1_0000_0000
  }

  /** Index of the last byte of a run of len bytes from a that lands on x; -1 when none does. */
  function LandsOn(a: Address, len: nat, x: Address): (k: int)
    ensures -1 <= k < len
    ensures k >= 0 ==> Plus(a, k) == x
  {
    var skipped := if len > 0x1_0000_0000 then len - 0x1_0000_0000 else 0;
    var d := Distance(Plus(a, skipped), x);
    PlusDistance(Plus(a, skipped), x);
    PlusPlus(a, skipped, d);
    if d < len - skipped then skipped + d else -1
  }

  /** The byte at x according to the history alone: the last store that reaches x decides. */
  function LastWritten(m: Flat, history: seq<Store>, x: Address): byte {
    if history == [] then m[x]
    else
      var last := history[|history| - 1];
      var k := LandsOn(last.at, |last.bytes|, x);
      if k >= 0 then last.bytes[k] else LastWritten(m, history[..|history| - 1], x)
  }

  lemma DistancePlus(a: Address, k: nat)
    requires k < 0x1_0000_0000
    ensures Distance(a, Plus(a, k)) == k
  {
  }

  lemma PlusDistance(a: Address, x: Address)
    ensures Plus(a, Distance(a, x)) == x
  {
  }

  lemma PokeShort(m: Flat, a: Address, bytes: seq<byte>, x: Address)
    requires |bytes| <= 0x1_0000_0000
    ensures Poke(m, a, bytes)[x] == var d := Distance(a, x); if d < |bytes| then bytes[d] else m[x]
  {
    var d := Distance(a, x);
    PlusDistance(a, x);
    if d < |bytes| {
      PokeHit(m, a, bytes, d);
    } else {
      forall k | 0 <= k < |bytes| ensures x != Plus(a, k) {
        DistancePlus(a, k);
      }
      PokeFrame(m, a, bytes, x);
    }
  }

  lemma PokeLandsOn(m: Flat, a: Address, bytes: seq<byte>, x: Address)
    ensures Poke(m, a, bytes)[x] == var k := LandsOn(a, |bytes|, x); if k >= 0 then bytes[k] else m[x]
  {
    var n := if |bytes| > 0x1_0000_0000 then |bytes| - 0x1_0000_0000 else 0;
    assert bytes == bytes[..n] + bytes[n..];
    PokeConcat(m, a, bytes[..n], bytes[n..]);
    PokeShort(Poke(m, a, bytes[..n]), Plus(a, n), bytes[n..], x);
    if n == 0 {
      assert bytes[..n] == [];
    }
  }

  /** Memory after any history of stores of any length holds, at every address, the last byte written there. */
  lemma {:induction false} LastWriteWins(m: Flat, history: seq<Store>, x: Address)
    ensures StoreAll(m, history)[x] == LastWritten(m, history, x)
    decreases |history|
  {
    if history != [] {
      var last := history[|history| - 1];
      LastWriteWins(m, history[..|history| - 1], x);
      PokeLandsOn(StoreAll(m, history[..|history| - 1]), last.at, last.bytes, x);
    }
  }
}
