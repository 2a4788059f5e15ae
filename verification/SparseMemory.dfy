/** The simulator's memory: 4096-byte pages made on demand, little-endian wide accesses built from byte accesses,
    the page-copying block write of the loader, and the byte windows of the timer. */
module SparseMemory {
  import opened FlatMemory

  function PageKey(a: Address): Address {
    a - a % PAGE_SIZE
  }

  /** Number of bytes the block write copies: it always runs to the end of the last page it enters. */
  function Extent(a: Address, size: int): nat {
    if size <= 0 then 0 else (a % PAGE_SIZE + size + PAGE_SIZE - 1) / PAGE_SIZE * PAGE_SIZE - a % PAGE_SIZE
  }

  lemma ExtentStep(a: Address, size: int)
    requires size > 0
    ensures var n := PAGE_SIZE - a % PAGE_SIZE; n + Extent(Plus(a, n), size - n) == Extent(a, size)
  {
    var n := PAGE_SIZE - a % PAGE_SIZE;
    assert Plus(a, n) % PAGE_SIZE == 0;
  }

  /** The block write reads no more than size bytes exactly when it is given none, or ends on a page boundary. */
  lemma StaysInside(a: Address, size: nat)
    ensures Extent(a, size) <= size <==> size == 0 || (a + size) % PAGE_SIZE == 0
  {
  }

  // ----- timer windows

  type Window = w: seq<byte> | |w| == 8 witness [0, 0, 0, 0, 0, 0, 0, 0]

  datatype Routed = RoutedMemory(mtimeAddr: Address, mtimecmpAddr: Address, pages: Flat, mtime: Window,
      mtimecmp: Window)

  predicate InWindow(base: Address, off: Address) {
    base <= off < Plus(base, 8)
  }

  /** A window is eight bytes; one that touches the end of the address space holds none. */
  lemma WindowIsEightBytes(base: Address, off: Address)
    ensures InWindow(base, off) <==> base + 8 < 0x1_0000_0000 && base <= off < base + 8
  {
  }

  function RoutedByte(m: Routed, a: Address): byte {
    if InWindow(m.mtimeAddr, a) then m.mtime[a - m.mtimeAddr]
    else if InWindow(m.mtimecmpAddr, a) then m.mtimecmp[a - m.mtimecmpAddr]
    else m.pages[a]
  }

  function StoreByte(m: Routed, off: Address, b: byte): Routed {
    if InWindow(m.mtimeAddr, off) then m.(mtime := m.mtime[off - m.mtimeAddr := b])
    else if InWindow(m.mtimecmpAddr, off) then m.(mtimecmp := m.mtimecmp[off - m.mtimecmpAddr := b])
    else m.(pages := m.pages[off := b])
  }

  /** A routed byte read returns the byte last routed to its address, even when the two windows overlap. */
  lemma RoutedReadOverWrite(m: Routed, off: Address, b: byte, a: Address)
    ensures RoutedByte(StoreByte(m, off, b), a) == if a == off then b else RoutedByte(m, a)
  {
  }

  class AddressRouter {
    const mtimeAddr: Address
    const mtimecmpAddr: Address
    var page: map<Address, array<byte>>
    const mtime: array<byte>
    const mtimecmp: array<byte>

    ghost predicate Valid()
      reads this, page.Values
    {
      && mtime.Length == 8 && mtimecmp.Length == 8 && mtime != mtimecmp
      && mtime !in page.Values && mtimecmp !in page.Values
      && (forall k | k in page :: k % PAGE_SIZE == 0 && page[k].Length == PAGE_SIZE)
      && (forall j, k | j in page && k in page && j != k :: page[j] != page[k])
    }

    ghost function Repr(): set<object>
      reads this
    {
      page.Values + {this, mtime, mtimecmp}
    }

    constructor (mtimeAddr: Address, mtimecmpAddr: Address)
      ensures Valid() && fresh(Repr())
      ensures Flat() == seq(0x1_0000_0000, _ => 0)
      ensures Routed() == RoutedMemory(mtimeAddr, mtimecmpAddr, Flat(), seq(8, _ => 0), seq(8, _ => 0))
    {
      this.mtimeAddr, this.mtimecmpAddr := mtimeAddr, mtimecmpAddr;
      page := map[];
      mtime := new byte[8](_ => 0);
      mtimecmp := new byte[8](_ => 0);
    }

    /** The page store as a flat memory: absent pages read as zero. */
    ghost function Flat(): Flat
      requires Valid()
      reads this, page.Values
    {
      seq(0x1_0000_0000, a requires 0 <= a < 0x1_0000_0000 && Valid() reads this, page.Values => PageRead8(a))
    }

    function PageRead8(off: Address): (b: byte)
      requires Valid()
      reads this, page.Values
    {
      if PageKey(off) !in page then 0 else page[PageKey(off)][off % PAGE_SIZE]
    }

    method EnsurePageExists(addr: Address) returns (key: Address)
      requires Valid()
      modifies this`page
      ensures Valid() && fresh(page.Values - old(page.Values))
      ensures key == PageKey(addr) && key in page
      ensures Flat() == old(Flat())
      ensures forall k | k in old(page) :: k in page && page[k] == old(page)[k]
    {
      key := PageKey(addr);
      if key !in page {
        var zeros := new byte[PAGE_SIZE](_ => 0);
        page := page[key := zeros];
      }
    }

    method PageWrite8(off: Address, b: byte)
      requires Valid()
      modifies this`page, page.Values
      ensures Valid() && fresh(page.Values - old(page.Values))
      ensures Flat() == old(Flat())[off := b]
    {
      var key := EnsurePageExists(off);
      page[key][off % PAGE_SIZE] := b;
    }
  
    // ----- wide accesses, all on the page store

    function PageRead16(off: Address): (h: half)
      requires Valid()
      reads this, page.Values
      ensures Bytes16(h) == Peek(Flat(), off, 2)
      ensures h == LoadHalf(Flat(), off)
    {
      var lo, hi := PageRead8(off), PageRead8(Plus(off, 1));
      SplitHalf(lo, hi);
      (lo as half) | ((hi as half) << 8)
    }

    function PageRead32(off: Address): (w: word)
      requires Valid()
      reads this, page.Values
      ensures Bytes32(w) == Peek(Flat(), off, 4)
      ensures w == LoadWord(Flat(), off)
    {
      var lo, hi := PageRead16(off), PageRead16(Plus(off, 2));
      SplitWord(lo, hi);
      PeekConcat(Flat(), off, 2, 2);
      Bytes32Injective((lo as word) | ((hi as word) << 16), LoadWord(Flat(), off));
      (lo as word) | ((hi as word) << 16)
    }

    function PageRead64(off: Address): (d: dword)
      requires Valid()
      reads this, page.Values
      ensures Bytes64(d) == Peek(Flat(), off, 8)
      ensures d == LoadDword(Flat(), off)
    {
      var lo, hi := PageRead32(off), PageRead32(Plus(off, 4));
      SplitDword(lo, hi);
      PeekConcat(Flat(), off, 4, 4);
      (lo as dword) | ((hi as dword) << 32)
    }

    method PageWrite16(off: Address, h: half)
      requires Valid()
      modifies this`page, page.Values
      ensures Valid() && fresh(page.Values - old(page.Values))
      ensures Flat() == Poke(old(Flat()), off, Bytes16(h))
    {
      ghost var before := Flat();
      PageWrite8(off, (h & 0xFF) as byte);
      PageWrite8(Plus(off, 1), (h >> 8) as byte);
      PokeTwo(before, off, (h & 0xFF) as byte, (h >> 8) as byte);
    }

    method PageWrite32(off: Address, w: word)
      requires Valid()
      modifies this`page, page.Values
      ensures Valid() && fresh(page.Values - old(page.Values))
      ensures Flat() == Poke(old(Flat()), off, Bytes32(w))
    {
      ghost var before := Flat();
      PageWrite16(off, (w & 0xFFFF) as half);
      PageWrite16(Plus(off, 2), (w >> 16) as half);
      HalvesOfWord(w);
      PokeConcat(before, off, Bytes16((w & 0xFFFF) as half), Bytes16((w >> 16) as half));
    }

    method PageWrite64(off: Address, d: dword)
      requires Valid()
      modifies this`page, page.Values
      ensures Valid() && fresh(page.Values - old(page.Values))
      ensures Flat() == Poke(old(Flat()), off, Bytes64(d))
    {
      ghost var before := Flat();
      PageWrite32(off, ((d << 32) >> 32) as word);
      PageWrite32(Plus(off, 4), (d >> 32) as word);
      LowWord(d);
      PokeConcat(before, off, Bytes32(((d << 32) >> 32) as word), Bytes32((d >> 32) as word));
    }

    // ----- the block write of the loader

    /** Copies whole page tails: size says when to stop, not how many bytes of src are used. */
    method Write(virtAddr: Address, src: seq<byte>, size: int)
      requires Valid()
      requires |src| >= Extent(virtAddr, size)
      modifies this`page, page.Values
      ensures Valid() && fresh(page.Values - old(page.Values))
      ensures Flat() == Poke(old(Flat()), virtAddr, src[..Extent(virtAddr, size)])
    {
      hide Flat;
      ghost var before := Flat();
      var addr, remaining, pos := virtAddr, size, 0;
      while remaining > 0
        invariant Valid() && fresh(page.Values - old(page.Values))
        invariant remaining + pos == size && addr == Plus(virtAddr, pos)
        invariant 0 <= pos && pos + Extent(addr, remaining) == Extent(virtAddr, size)
        invariant Flat() == Poke(before, virtAddr, src[..pos])
      {
        var key := EnsurePageExists(addr);
        var off := addr % PAGE_SIZE;
        var pageEnd := PAGE_SIZE - off;
        ExtentStep(addr, remaining);
        WriteBlock(addr, src[pos..pos + pageEnd]);
        assert src[..pos] + src[pos..pos + pageEnd] == src[..pos + pageEnd];
        PokeConcat(before, virtAddr, src[..pos], src[pos..pos + pageEnd]);
        PlusPlus(virtAddr, pos, pageEnd);
        pos, remaining, addr := pos + pageEnd, remaining - pageEnd, Plus(addr, pageEnd);
      }
    }

    /** The copy into one page, up to its end. */
    method WriteBlock(addr: Address, block: seq<byte>)
      requires Valid() && PageKey(addr) in page
      requires |block| == PAGE_SIZE - addr % PAGE_SIZE
      modifies page[PageKey(addr)]
      ensures Valid()
      ensures Flat() == Poke(old(Flat()), addr, block)
    {
      hide Poke;
      ghost var before := Flat();
      var target, off := page[PageKey(addr)], addr % PAGE_SIZE;
      forall i | 0 <= i < |block| {
        target[off + i] := block[i];
      }
      forall x: Address
        ensures PageRead8(x) == if addr <= x < addr + |block| then block[x - addr] else before[x]
      {
        if PageKey(x) == PageKey(addr) {
          assert x - addr == x % PAGE_SIZE - off;
        }
      }
      ghost var after := Poke(before, addr, block);
      forall x: Address ensures PageRead8(x) == after[x] {
        PokeInterval(before, addr, block, x);
      }
      assert Flat() == after;
    }

    // ----- byte accesses routed through the timer windows

    function Read8(off: Address): (b: byte)
      requires Valid()
      reads this, page.Values, mtime, mtimecmp
      ensures b == RoutedByte(Routed(), off)
    {
      if InWindow(mtimeAddr, off) then mtime[off - mtimeAddr]
      else if InWindow(mtimecmpAddr, off) then mtimecmp[off - mtimecmpAddr]
      else PageRead8(off)
    }

    method Write8(off: Address, b: byte)
      requires Valid()
      modifies Repr()
      ensures Valid() && fresh(Repr() - old(Repr()))
      ensures Routed() == StoreByte(old(Routed()), off, b)
    {
      if InWindow(mtimeAddr, off) {
        mtime[off - mtimeAddr] := b;
      } else if InWindow(mtimecmpAddr, off) {
        mtimecmp[off - mtimecmpAddr] := b;
      } else {
        PageWrite8(off, b);
      }
    }

    /** The whole of what the router holds, as a value. */
    ghost function Routed(): Routed
      requires Valid()
      reads this, page.Values, mtime, mtimecmp
    {
      RoutedMemory(mtimeAddr, mtimecmpAddr, Flat(), mtime[..], mtimecmp[..])
    }
  }

  // ----- bit-level facts behind the wide accesses

  lemma SplitHalf(lo: byte, hi: byte)
    ensures Bytes16((lo as half) | ((hi as half) << 8)) == [lo, hi]
  {
  }

  lemma SplitWord(lo: half, hi: half)
    ensures Bytes32((lo as word) | ((hi as word) << 16)) == Bytes16(lo) + Bytes16(hi)
  {
    var w := (lo as word) | ((hi as word) << 16);
    assert (w & 0xFF) as byte == (lo & 0xFF) as byte;
    assert ((w >> 8) & 0xFF) as byte == (lo >> 8) as byte;
    assert ((w >> 16) & 0xFF) as byte == (hi & 0xFF) as byte;
    assert (w >> 24) as byte == (hi >> 8) as byte;
  }

  lemma HalvesOfWord(w: word)
    ensures Bytes16((w & 0xFFFF) as half) + Bytes16((w >> 16) as half) == Bytes32(w)
  {
    assert (((w & 0xFFFF) as half) & 0xFF) as byte == (w & 0xFF) as byte;
    assert (((w & 0xFFFF) as half) >> 8) as byte == ((w >> 8) & 0xFF) as byte;
    assert (((w >> 16) as half) & 0xFF) as byte == ((w >> 16) & 0xFF) as byte;
    assert (((w >> 16) as half) >> 8) as byte == (w >> 24) as byte;
  }

  lemma SplitDword(lo: word, hi: word)
    ensures Bytes64((lo as dword) | ((hi as dword) << 32)) == Bytes32(lo) + Bytes32(hi)
  {
    var d := (lo as dword) | ((hi as dword) << 32);
    assert (d & 0xFFFF_FFFF) as word == lo;
    assert (d >> 32) as word == hi;
  }

  lemma LowWord(d: dword)
    ensures (d << 32) >> 32 == d & 0xFFFF_FFFF
  {
  }

  lemma PokeTwo(m: Flat, a: Address, x: byte, y: byte)
    ensures m[a := x][Plus(a, 1) := y] == Poke(m, a, [x, y])
  {
    assert [x, y][1..] == [y] && [y][1..] == [];
    assert Poke(m, a, [x, y]) == Poke(m[a := x], Plus(a, 1), [y]);
    assert Poke(m[a := x], Plus(a, 1), [y]) == Poke(m[a := x][Plus(a, 1) := y], Plus(Plus(a, 1), 1), []);
  }
}
