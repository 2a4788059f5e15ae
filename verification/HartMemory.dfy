/** Load and store instructions against the flat memory, and the timer windows seen by bytes only. */
module HartMemory {
  import opened FlatMemory
  import opened SparseMemory
  import opened Arith
  import opened Alu
  import opened HartSpec

  // ----- what a load means

  /** The integer a run of bytes stands for, least significant first. */
  function LittleEndian(bytes: seq<byte>): nat {
    if bytes == [] then 0 else bytes[0] as int + 0x100 * LittleEndian(bytes[1..])
  }

  function Width(kind: LoadKind): nat {
    match kind
    case Lb | Lbu => 1
    case Lh | Lhu => 2
    case Lw => 4
  }

  /** The value a load must return: the little-endian integer of its bytes, read as signed by lb, lh and lw. */
  function Meaning(kind: LoadKind, bytes: seq<byte>): int
    requires |bytes| == Width(kind)
  {
    var u := LittleEndian(bytes);
    match kind
    case Lb => if u < 0x80 then u else u - 0x100
    case Lh => if u < 0x8000 then u else u - 0x1_0000
    case Lw => if u < 0x8000_0000 then u else u - 0x1_0000_0000
    case Lbu => u
    case Lhu => u
  }

  lemma HalfValue(lo: byte, hi: byte)
    ensures ((lo as half) | ((hi as half) << 8)) as int == lo as int + 0x100 * (hi as int)
  {
  }

  lemma WordValue(lo: half, hi: half)
    ensures ((lo as word) | ((hi as word) << 16)) as int == lo as int + 0x1_0000 * (hi as int)
  {
  }

  lemma JoinValue(b0: byte, b1: byte, b2: byte, b3: byte)
    ensures Join32([b0, b1, b2, b3]) as int
         == b0 as int + 0x100 * (b1 as int) + 0x1_0000 * (b2 as int) + 0x100_0000 * (b3 as int)
  {
    var lo, hi := (b0 as half) | ((b1 as half) << 8), (b2 as half) | ((b3 as half) << 8);
    JoinHalves(b0, b1, b2, b3);
    HalfValue(b0, b1);
    HalfValue(b2, b3);
    WordValue(lo, hi);
  }

  lemma JoinHalves(b0: byte, b1: byte, b2: byte, b3: byte)
    ensures Join32([b0, b1, b2, b3])
         == (((b0 as half) | ((b1 as half) << 8)) as word) | ((((b2 as half) | ((b3 as half) << 8)) as word) << 16)
  {
  }

  lemma SignExtend8Value(b: byte)
    ensures b as int < 0x80 ==> SignExtend8(b) as int == b as int
    ensures b as int >= 0x80 ==> SignExtend8(b) as int == b as int + 0xFFFF_FF00
  {
    if b >= 0x80 {
      assert (b as word) | 0xFFFF_FF00 == (b as word) + 0xFFFF_FF00;
    }
  }

  lemma SignExtend16Value(h: half)
    ensures h as int < 0x8000 ==> Value(SignExtend16(h)) == h as int
    ensures h as int >= 0x8000 ==> Value(SignExtend16(h)) == h as int + 0xFFFF_0000
  {
    hide SignExtend16;
    HalfSign(h);
    if h < 0x8000 {
      LowHalf(h);
    } else {
      HighHalf(h);
    }
  }

  lemma HalfSign(h: half)
    ensures h < 0x8000 <==> h as int < 0x8000
  {
  }

  lemma LowHalf(h: half)
    requires h < 0x8000
    ensures Value(SignExtend16(h)) == h as int
  {
    WidenHalf(h);
  }

  lemma HighHalf(h: half)
    requires h >= 0x8000
    ensures Value(SignExtend16(h)) == h as int + 0xFFFF_0000
  {
    WidenHalf(h);
    SetHighHalf(h as word);
  }

  lemma SetHighHalf(w: word)
    requires w < 0x1_0000
    ensures (w | 0xFFFF_0000) as int == w as int + 0xFFFF_0000
  {
    OrHighHalf(w);
    AddHighHalf(w);
  }

  lemma WidenHalf(h: half)
    ensures Value(h as word) == h as int && (h as word) < 0x1_0000
  {
  }

  lemma OrHighHalf(w: word)
    requires w < 0x1_0000
    ensures w | 0xFFFF_0000 == w + 0xFFFF_0000
  {
  }

  lemma AddHighHalf(w: word)
    requires w < 0x1_0000
    ensures (w + 0xFFFF_0000) as int == w as int + 0xFFFF_0000
  {
  }

  lemma LittleEndian2(b0: byte, b1: byte)
    ensures LittleEndian([b0, b1]) == b0 as int + 0x100 * (b1 as int)
  {
    var all, tail := [b0, b1], [b1];
    assert all[1..] == tail && tail[1..] == [];
    assert LittleEndian(tail) == b1 as int + 0x100 * LittleEndian([]);
  }

  lemma LittleEndian4(b0: byte, b1: byte, b2: byte, b3: byte)
    ensures LittleEndian([b0, b1, b2, b3])
         == b0 as int + 0x100 * (b1 as int) + 0x1_0000 * (b2 as int) + 0x100_0000 * (b3 as int)
  {
    var all, tail := [b0, b1, b2, b3], [b1, b2, b3];
    assert all[1..] == tail && tail[1..] == [b2, b3];
    assert LittleEndian(all) == b0 as int + 0x100 * LittleEndian(tail);
    assert LittleEndian(tail) == b1 as int + 0x100 * LittleEndian([b2, b3]);
    LittleEndian2(b2, b3);
    assert LittleEndian(tail) == b1 as int + 0x100 * (b2 as int + 0x100 * (b3 as int));
    assert LittleEndian(all) == b0 as int + 0x100 * (b1 as int + 0x100 * (b2 as int + 0x100 * (b3 as int)));
  }

  // ----- accesses clear of the windows

  predicate Outside(m: Routed, a: Address) {
    !InWindow(m.mtimeAddr, a) && !InWindow(m.mtimecmpAddr, a)
  }

  /** Only byte accesses look at the windows. */
  predicate LoadIsClear(m: Routed, kind: LoadKind, a: Address) {
    kind == Lb || kind == Lbu ==> Outside(m, a)
  }

  lemma ByteLoad(b: byte)
    ensures Value(SignExtend8(b)) == Wrap(Meaning(Lb, [b])) && Value(b as word) == Wrap(Meaning(Lbu, [b]))
  {
    assert LittleEndian([b]) == b as int by { assert [b][1..] == []; }
    SignExtend8Value(b);
  }

  lemma HalfMeaning(bytes: seq<byte>, u: int)
    requires |bytes| == 2 && u == LittleEndian(bytes) < 0x1_0000
    ensures Wrap(Meaning(Lh, bytes)) == (if u < 0x8000 then u else u + 0xFFFF_0000) && Wrap(Meaning(Lhu, bytes)) == u
  {
    hide LittleEndian;
  }

  lemma HalfLoad(bytes: seq<byte>, h: half)
    requires |bytes| == 2 && h as int == LittleEndian(bytes)
    ensures Value(SignExtend16(h)) == Wrap(Meaning(Lh, bytes)) && Value(h as word) == Wrap(Meaning(Lhu, bytes))
  {
    hide SignExtend16, LittleEndian, Wrap, Meaning;
    SignExtend16Value(h);
    WidenHalf(h);
    HalfMeaning(bytes, h as int);
  }

  lemma WordLoad(b0: byte, b1: byte, b2: byte, b3: byte)
    ensures Value(Join32([b0, b1, b2, b3])) == Wrap(Meaning(Lw, [b0, b1, b2, b3]))
  {
    hide Join32, LittleEndian;
    LittleEndian4(b0, b1, b2, b3);
    JoinValue(b0, b1, b2, b3);
  }

  lemma LoadMeaning(m: Routed, kind: LoadKind, a: Address)
    requires LoadIsClear(m, kind, a)
    ensures Value(Load(m, kind, a)) == Wrap(Meaning(kind, Peek(m.pages, a, Width(kind))))
  {
    match kind {
      case Lb | Lbu => ByteLoadMeaning(m, kind, a);
      case Lh | Lhu => HalfLoadMeaning(m, a);
      case Lw => WordLoadMeaning(m, a);
    }
  }

  lemma ByteLoadMeaning(m: Routed, kind: LoadKind, a: Address)
    requires kind in {Lb, Lbu} && Outside(m, a)
    ensures Value(Load(m, kind, a)) == Wrap(Meaning(kind, Peek(m.pages, a, 1)))
  {
    hide Value, Wrap, Meaning, SignExtend8, SignExtend16, LoadHalf, LoadWord, InWindow;
    assert Plus(a, 0) == a;
    assert Peek(m.pages, a, 1) == [m.pages[a]];
    ByteLoad(m.pages[a]);
  }

  lemma HalfLoadMeaning(m: Routed, a: Address)
    ensures Value(Load(m, Lh, a)) == Wrap(Meaning(Lh, Peek(m.pages, a, 2)))
    ensures Value(Load(m, Lhu, a)) == Wrap(Meaning(Lhu, Peek(m.pages, a, 2)))
  {
    hide *;
    HalfLoadForms(m, a);
    HalfLittleEndian(m.pages, a);
    HalfLoad(Peek(m.pages, a, 2), LoadHalf(m.pages, a));
  }

  lemma HalfLoadForms(m: Routed, a: Address)
    ensures Load(m, Lh, a) == SignExtend16(LoadHalf(m.pages, a)) && Load(m, Lhu, a) == LoadHalf(m.pages, a) as word
  {
    hide SignExtend16, SignExtend8, LoadHalf, LoadWord, RoutedByte;
  }

  lemma HalfLittleEndian(m: Flat, a: Address)
    ensures LoadHalf(m, a) as int == LittleEndian(Peek(m, a, 2))
  {
    hide LittleEndian;
    assert Plus(a, 0) == a;
    assert Peek(m, a, 2) == [m[a], m[Plus(a, 1)]];
    LittleEndian2(m[a], m[Plus(a, 1)]);
    HalfValue(m[a], m[Plus(a, 1)]);
  }

  lemma WordLoadMeaning(m: Routed, a: Address)
    ensures Value(Load(m, Lw, a)) == Wrap(Meaning(Lw, Peek(m.pages, a, 4)))
  {
    hide Value, Wrap, Meaning, Join32, SignExtend16, SignExtend8, LoadHalf, RoutedByte;
    var bytes := Peek(m.pages, a, 4);
    assert bytes == [bytes[0], bytes[1], bytes[2], bytes[3]];
    WordLoad(bytes[0], bytes[1], bytes[2], bytes[3]);
  }

  // ----- sequences of stores

  datatype StoreOp = StoreOp(kind: StoreKind, at: Address, value: word)

  predicate StoreIsClear(m: Routed, op: StoreOp) {
    op.kind == Sb ==> Outside(m, op.at)
  }

  function Stored(op: StoreOp): seq<byte> {
    match op.kind
    case Sb => [(op.value & 0xFF) as byte]
    case Sh => Bytes16((op.value & 0xFFFF) as half)
    case Sw => Bytes32(op.value)
  }

  lemma StoredByte(a: Address, v: word)
    ensures Stored(StoreOp(Sb, a, v)) == Bytes32(v)[..1]
  {
  }

  lemma StoredHalf(a: Address, v: word)
    ensures Stored(StoreOp(Sh, a, v)) == Bytes32(v)[..2]
  {
    LowByte(v);
    SecondByte(v);
  }

  lemma LowByte(v: word)
    ensures (((v & 0xFFFF) as half) & 0xFF) as byte == (v & 0xFF) as byte
  {
  }

  lemma SecondByte(v: word)
    ensures (((v & 0xFFFF) as half) >> 8) as byte == ((v >> 8) & 0xFF) as byte
  {
  }

  lemma WordBytes(v: word)
    ensures LittleEndian(Bytes32(v)) == Value(v)
  {
    hide Bytes32, Join32, LittleEndian, Value;
    var b := Bytes32(v);
    assert b == [b[0], b[1], b[2], b[3]];
    LittleEndian4(b[0], b[1], b[2], b[3]);
    JoinValue(b[0], b[1], b[2], b[3]);
    JoinBytes32(v);
    assert Value(v) == v as int by { ValueIsInt(v); }
  }

  lemma ValueIsInt(v: word)
    ensures Value(v) == v as int
  {
  }

  lemma StoredBytes(op: StoreOp)
    ensures op.kind == Sb ==> Stored(op) == Bytes32(op.value)[..1]
    ensures op.kind == Sh ==> Stored(op) == Bytes32(op.value)[..2]
    ensures op.kind == Sw ==> Stored(op) == Bytes32(op.value)
  {
    hide Bytes32, Stored;
    match op.kind {
      case Sb => StoredByte(op.at, op.value);
      case Sh => StoredHalf(op.at, op.value);
      case Sw => StoredWord(op.at, op.value);
    }
  }

  lemma StoredWord(a: Address, v: word)
    ensures Stored(StoreOp(Sw, a, v)) == Bytes32(v)
  {
    hide Bytes32, Bytes16;
  }

  /** The integer of the first bytes is the integer of all of them modulo a power of 256. */
  lemma LowDigit(bytes: seq<byte>)
    requires |bytes| > 1
    ensures LittleEndian(bytes[..1]) == LittleEndian(bytes) % 0x100
  {
    hide LittleEndian;
    Digits(bytes);
    Digits(bytes[..1]);
    assert bytes[..1][1..] == [];
    NoDigits();
    LowestDigit(bytes[0] as int, LittleEndian(bytes[1..]));
  }

  lemma LowDigits(bytes: seq<byte>)
    requires |bytes| > 2
    ensures LittleEndian(bytes[..2]) == LittleEndian(bytes) % 0x1_0000
  {
    hide LittleEndian;
    Digits(bytes);
    Digits(bytes[..2]);
    assert bytes[..2][1..] == bytes[1..][..1];
    LowDigit(bytes[1..]);
    TwoDigits(bytes[0] as int, LittleEndian(bytes[1..]));
  }

  lemma TwoDigits(x: int, rest: int)
    requires 0 <= x < 0x100
    ensures (x + 0x100 * rest) % 0x1_0000 == x + 0x100 * (rest % 0x100)
  {
  }

  lemma NoDigits()
    ensures LittleEndian([]) == 0
  {
  }

  lemma ByteRange(b: byte)
    ensures 0 <= b as int < 0x100
  {
  }

  lemma LowestDigit(x: int, rest: int)
    requires 0 <= x < 0x100
    ensures (x + 0x100 * rest) % 0x100 == x
  {
  }

  lemma Digits(bytes: seq<byte>)
    requires bytes != []
    ensures 0 <= bytes[0] as int < 0x100
    ensures LittleEndian(bytes) == bytes[0] as int + 0x100 * LittleEndian(bytes[1..])
  {
    ByteRange(bytes[0]);
  }

  /** A store writes the low bytes of its value, least significant first. */
  lemma StoredMeaning(op: StoreOp)
    ensures |Stored(op)| == if op.kind == Sb then 1 else if op.kind == Sh then 2 else 4
    ensures LittleEndian(Stored(op))
         == Value(op.value) % if op.kind == Sb then 0x100 else if op.kind == Sh then 0x1_0000 else 0x1_0000_0000
  {
    hide Bytes32, Stored, Value, LittleEndian;
    WordBytes(op.value);
    StoredBytes(op);
    LowDigit(Bytes32(op.value));
    LowDigits(Bytes32(op.value));
  }

  /** The router after a sequence of store instructions. */
  function RunStores(m: Routed, ops: seq<StoreOp>): Routed {
    if ops == [] then m
    else var last := ops[|ops| - 1]; StoreValue(RunStores(m, ops[..|ops| - 1]), last.kind, last.at, last.value)
  }

  /** The same stores as a history of the flat memory. */
  function History(ops: seq<StoreOp>): (history: seq<Store>)
    ensures |history| == |ops|
  {
    if ops == [] then []
    else var last := ops[|ops| - 1]; History(ops[..|ops| - 1]) + [Store(last.at, Stored(last))]
  }

  lemma PokeOne(m: Flat, a: Address, b: byte)
    ensures Poke(m, a, [b]) == m[a := b]
  {
    assert [b][1..] == [];
    assert Poke(m, a, [b]) == Poke(m[a := b], Plus(a, 1), []);
  }

  lemma {:induction false} StoresRefineFlat(m: Routed, ops: seq<StoreOp>)
    requires forall op | op in ops :: StoreIsClear(m, op)
    ensures RunStores(m, ops) == m.(pages := StoreAll(m.pages, History(ops)))
    decreases |ops|
  {
    hide Stored, InWindow, Plus;
    if ops != [] {
      var front, last := ops[..|ops| - 1], ops[|ops| - 1];
      assert forall op | op in front :: op in ops;
      StoresRefineFlat(m, front);
      assert last in ops;
      assert History(ops)[..|ops| - 1] == History(front);
      OneStore(RunStores(m, front), last);
    }
  }

  lemma OneStore(m: Routed, op: StoreOp)
    requires StoreIsClear(m, op)
    ensures StoreValue(m, op.kind, op.at, op.value) == m.(pages := Poke(m.pages, op.at, Stored(op)))
  {
    hide Bytes16, Bytes32, Poke;
    if op.kind == Sb {
      assert Plus(op.at, 0) == op.at;
      PokeOne(m.pages, op.at, (op.value & 0xFF) as byte);
    }
  }

  /** A load clear of the windows, after any sequence of stores clear of them, returns the extended little-endian
      value of the bytes last written at its addresses. */
  lemma LoadAfterStores(m: Routed, ops: seq<StoreOp>, kind: LoadKind, a: Address)
    requires forall op | op in ops :: StoreIsClear(m, op)
    requires LoadIsClear(m, kind, a)
    ensures Value(Load(RunStores(m, ops), kind, a))
         == Wrap(Meaning(kind, seq(Width(kind), k requires 0 <= k => LastWritten(m.pages, History(ops), Plus(a, k)))))
  {
    hide Value, Wrap, Meaning, Load, Stored, StoreAll, LastWritten, RunStores;
    StoresRefineFlat(m, ops);
    var after := RunStores(m, ops);
    LoadMeaning(after, kind, a);
    var written := seq(Width(kind), k requires 0 <= k => LastWritten(m.pages, History(ops), Plus(a, k)));
    forall k | 0 <= k < Width(kind) ensures Peek(after.pages, a, Width(kind))[k] == written[k] {
      LastWriteWins(m.pages, History(ops), Plus(a, k));
    }
    assert Peek(after.pages, a, Width(kind)) == written;
  }

  /** Routed bytes and page-store accesses agree outside the windows; a byte stored inside one never reaches the
      pages. */
  lemma WindowsAreByteOnly(m: Routed, a: Address, b: byte)
    ensures Outside(m, a) ==> RoutedByte(m, a) == m.pages[a] && StoreByte(m, a, b).pages == m.pages[a := b]
    ensures !Outside(m, a) ==>
              RoutedByte(StoreByte(m, a, b), a) == b && forall x: Address, kind: LoadKind | kind in {Lh, Lw, Lhu} ::
                Load(StoreByte(m, a, b), kind, x) == Load(m, kind, x)
  {
    hide LoadHalf, LoadWord, SignExtend16;
    assert Plus(a, 0) == a;
  }
}
