/** The loader: which bytes are readable after the program headers have been copied into memory. */
module Loader {
  import opened FlatMemory
  import opened SparseMemory

  /** A program header: get_type() == PT_LOAD, the virtual address, the bytes get_data() points to and the file size. */
  datatype Segment = Segment(loadable: bool, virtAddr: Address, data: seq<byte>, fileSize: nat)

  /** The bytes the block write copies are there to be copied: past the file size, up to the end of the last page. */
  predicate Backed(segments: seq<Segment>) {
    forall s | s in segments && s.loadable :: |s.data| >= Extent(s.virtAddr, s.fileSize)
  }

  function Stores(segments: seq<Segment>): seq<Store>
    requires Backed(segments)
  {
    if segments == [] then []
    else
      var s := segments[|segments| - 1];
      var earlier := Stores(segments[..|segments| - 1]);
      if s.loadable then earlier + [Store(s.virtAddr, s.data[..Extent(s.virtAddr, s.fileSize)])] else earlier
  }

  /** The loader's pass over the program headers. */
  method Load(mem: AddressRouter, segments: seq<Segment>)
    requires mem.Valid()
    requires Backed(segments)
    modifies mem`page, mem.page.Values
    ensures mem.Valid() && fresh(mem.page.Values - old(mem.page.Values))
    ensures mem.Flat() == StoreAll(old(mem.Flat()), Stores(segments))
  {
    for i := 0 to |segments|
      invariant mem.Valid() && fresh(mem.page.Values - old(mem.page.Values))
      invariant mem.Flat() == StoreAll(old(mem.Flat()), Stores(segments[..i]))
    {
      var s := segments[i];
      assert segments[..i + 1][..i] == segments[..i];
      if s.loadable {
        mem.Write(s.virtAddr, s.data, s.fileSize);
      }
    }
    assert segments[..|segments|] == segments;
  }

  /** The segment is copied, and its page-rounded extent includes x. */
  predicate Reaches(s: Segment, x: Address) {
    s.loadable && LandsOn(s.virtAddr, Extent(s.virtAddr, s.fileSize), x) >= 0
  }

  /** The byte of the segment that is copied to x. */
  function ByteFor(s: Segment, x: Address): byte
    requires Reaches(s, x) && |s.data| >= Extent(s.virtAddr, s.fileSize)
  {
    s.data[LandsOn(s.virtAddr, Extent(s.virtAddr, s.fileSize), x)]
  }

  lemma StoresAt(segments: seq<Segment>, x: Address, m: Flat, i: nat)
    requires Backed(segments)
    requires i < |segments| && segments[i].loadable && Reaches(segments[i], x)
    requires forall j | i < j < |segments| :: !Reaches(segments[j], x)
    ensures LastWritten(m, Stores(segments), x) == ByteFor(segments[i], x)
  {
    var front := segments[..|segments| - 1];
    if i < |segments| - 1 {
      assert !Reaches(segments[|segments| - 1], x);
      StoresAt(front, x, m, i);
    }
    if segments[|segments| - 1].loadable {
      var all := Stores(segments);
      assert all[..|all| - 1] == Stores(front);
    }
  }

  lemma {:induction false} UnreachedByLoad(segments: seq<Segment>, x: Address, m: Flat)
    requires Backed(segments)
    requires forall s | s in segments :: !Reaches(s, x)
    ensures LastWritten(m, Stores(segments), x) == m[x]
    decreases |segments|
  {
    if segments != [] {
      var front := segments[..|segments| - 1];
      UnreachedByLoad(front, x, m);
      assert !Reaches(segments[|segments| - 1], x);
      if segments[|segments| - 1].loadable {
        var all := Stores(segments);
        assert all[..|all| - 1] == Stores(front);
      }
    }
  }

  /** A file byte of a segment is readable after the load as soon as no later segment's page-rounded extent comes
      over it. (A byte k with k < extent - 2^32 lies under the segment's own wrapped tail.) */
  lemma SegmentReadable(segments: seq<Segment>, m: Flat, i: nat, k: nat)
    requires Backed(segments)
    requires i < |segments| && segments[i].loadable
    requires Extent(segments[i].virtAddr, segments[i].fileSize) - 0x1_0000_0000
        <= k < Extent(segments[i].virtAddr, segments[i].fileSize)
    requires forall j | i < j < |segments| :: !Reaches(segments[j], Plus(segments[i].virtAddr, k))
    ensures StoreAll(m, Stores(segments))[Plus(segments[i].virtAddr, k)] == segments[i].data[k]
  {
    var s, x := segments[i], Plus(segments[i].virtAddr, k);
    LandsOnExact(s.virtAddr, Extent(s.virtAddr, s.fileSize), k);
    StoresAt(segments, x, m, i);
    LastWriteWins(m, Stores(segments), x);
  }

  lemma LandsOnExact(a: Address, len: nat, k: nat)
    requires len - 0x1_0000_0000 <= k < len
    ensures LandsOn(a, len, Plus(a, k)) == k
  {
    var n := if len > 0x1_0000_0000 then len - 0x1_0000_0000 else 0;
    PlusPlus(a, n, k - n);
    DistancePlus(Plus(a, n), k - n);
  }

  /** Segments in ascending order whose file bytes do not overlap are all readable, even inside one page. */
  lemma AscendingSegmentsReadable(segments: seq<Segment>, m: Flat, i: nat, k: nat)
    requires Backed(segments) && forall s | s in segments && s.loadable :: s.virtAddr + s.fileSize <= 0x1_0000_0000
    requires forall p, q | 0 <= p < q < |segments| && segments[p].loadable && segments[q].loadable ::
               segments[p].virtAddr + segments[p].fileSize <= segments[q].virtAddr
    requires i < |segments| && segments[i].loadable && k < segments[i].fileSize
    ensures StoreAll(m, Stores(segments))[segments[i].virtAddr + k] == segments[i].data[k]
  {
    var a, x := segments[i].virtAddr, segments[i].virtAddr + k;
    assert Plus(a, k) == x;
    forall j | i < j < |segments| ensures !Reaches(segments[j], x) {
      var t := segments[j];
      if t.loadable {
        assert x < t.virtAddr && t.virtAddr + Extent(t.virtAddr, t.fileSize) <= 0x1_0000_0000;
        assert Plus(t.virtAddr, 0) == t.virtAddr;
      }
    }
    SegmentReadable(segments, m, i, k);
  }

  /** Segments with pairwise disjoint page-rounded extents are all readable in any order, and what no extent reaches
      keeps its value. */
  lemma DisjointSegmentsReadable(segments: seq<Segment>, m: Flat, x: Address)
    requires Backed(segments)
    requires forall p, q | 0 <= p < q < |segments| && Reaches(segments[p], x) :: !Reaches(segments[q], x)
    ensures forall i | 0 <= i < |segments| && Reaches(segments[i], x) ::
        StoreAll(m, Stores(segments))[x] == ByteFor(segments[i], x)
    ensures (forall i | 0 <= i < |segments| :: !Reaches(segments[i], x)) ==> StoreAll(m, Stores(segments))[x] == m[x]
  {
    hide ByteFor, LandsOn, Extent;
    LastWriteWins(m, Stores(segments), x);
    forall i | 0 <= i < |segments| && Reaches(segments[i], x)
      ensures StoreAll(m, Stores(segments))[x] == ByteFor(segments[i], x)
    {
      StoresAt(segments, x, m, i);
    }
    if forall i | 0 <= i < |segments| :: !Reaches(segments[i], x) {
      UnreachedByLoad(segments, x, m);
    }
  }

  /** In descending order inside one page the later segment's page tail wipes out the earlier one. */
  lemma DescendingSegmentsClobber(m: Flat)
    ensures var zeros := seq(PAGE_SIZE, _ => 0 as byte);
            var segments := [Segment(true, 0x1800, seq(PAGE_SIZE, _ => 1 as byte), 4), Segment(true, 0x1000, zeros, 4)];
            StoreAll(m, Stores(segments))[0x1800] == 0
  {
    var zeros := seq(PAGE_SIZE, _ => 0 as byte);
    var segments := [Segment(true, 0x1800, seq(PAGE_SIZE, _ => 1 as byte), 4), Segment(true, 0x1000, zeros, 4)];
    assert Plus(0x1000, 0x800) == 0x1800;
    SegmentReadable(segments, m, 1, 0x800);
  }

  // ----- which file bytes are readable, exactly

  /** The last segment whose extent includes x; the number of segments when none does. */
  function LastReaching(segments: seq<Segment>, x: Address): (i: nat)
    ensures i <= |segments|
    ensures i < |segments| ==> Reaches(segments[i], x) && forall j | i < j < |segments| :: !Reaches(segments[j], x)
    ensures i == |segments| ==> forall j | 0 <= j < |segments| :: !Reaches(segments[j], x)
  {
    if segments == [] then 0
    else if Reaches(segments[|segments| - 1], x) then |segments| - 1
    else
      var i := LastReaching(segments[..|segments| - 1], x);
      if i < |segments| - 1 then i else |segments|
  }

  /** The byte at any address after the load: the last segment whose extent includes it decides. */
  lemma LoadedByte(segments: seq<Segment>, m: Flat, x: Address)
    requires Backed(segments)
    ensures var i := LastReaching(segments, x);
      StoreAll(m, Stores(segments))[x] == if i < |segments| then ByteFor(segments[i], x) else m[x]
  {
    hide ByteFor, Extent, LandsOn;
    var i := LastReaching(segments, x);
    LastWriteWins(m, Stores(segments), x);
    if i < |segments| {
      StoresAt(segments, x, m, i);
    } else {
      UnreachedByLoad(segments, x, m);
    }
  }

  /** The same program headers over other file contents. */
  predicate SameLayout(segments: seq<Segment>, other: seq<Segment>) {
    |other| == |segments| && forall i | 0 <= i < |segments| ::
      other[i].loadable == segments[i].loadable && other[i].virtAddr == segments[i].virtAddr
          && other[i].fileSize == segments[i].fileSize
  }

  /** Byte k of segment i is read back at its address. */
  predicate ReadsBack(segments: seq<Segment>, m: Flat, i: nat, k: nat)
    requires Backed(segments) && i < |segments| && segments[i].loadable && k < segments[i].fileSize
  {
    StoreAll(m, Stores(segments))[Plus(segments[i].virtAddr, k)] == segments[i].data[k]
  }

  /** No later extent covers the address of byte k of segment i, nor does the segment's own tail, wrapped around. */
  predicate Uncovered(segments: seq<Segment>, i: nat, k: nat)
    requires i < |segments|
  {
    && Extent(segments[i].virtAddr, segments[i].fileSize) <= k + 0x1_0000_0000
    && forall j | i < j < |segments| :: !Reaches(segments[j], Plus(segments[i].virtAddr, k))
  }

  /** A one at byte k of segment i, and zeros everywhere else. */
  function Marked(segments: seq<Segment>, i: nat, k: nat): (other: seq<Segment>)
    requires Backed(segments) && i < |segments| && segments[i].loadable && k < segments[i].fileSize
    ensures SameLayout(segments, other) && Backed(other)
    ensures forall j, n | 0 <= j < |other| && 0 <= n < |other[j].data| ::
        other[j].data[n] == if j == i && n == k then 1 else 0
  {
    seq(|segments|, j requires 0 <= j < |segments| =>
      segments[j].(data := seq(|segments[j].data|, n => if j == i && n == k then 1 else 0)))
  }

  /** The marked byte is lost when it is covered. */
  lemma CoveredIsLost(segments: seq<Segment>, m: Flat, i: nat, k: nat)
    requires Backed(segments) && i < |segments| && segments[i].loadable && k < segments[i].fileSize
    requires !Uncovered(segments, i, k)
    ensures !ReadsBack(Marked(segments, i, k), m, i, k)
  {
    var other, x := Marked(segments, i, k), Plus(segments[i].virtAddr, k);
    LoadedByte(other, m, x);
    var last := LastReaching(other, x);
    var s := other[i];
    OwnByteReached(s.virtAddr, Extent(s.virtAddr, s.fileSize), k);
  }

  /** A run of bytes reaches the address of each of its bytes; the last one there is byte k only if no wrapped one
      follows. */
  lemma OwnByteReached(a: Address, len: nat, k: nat)
    requires k < len
    ensures LandsOn(a, len, Plus(a, k)) >= 0
    ensures k + 0x1_0000_0000 < len ==> LandsOn(a, len, Plus(a, k)) != k
  {
  }

  /** A file byte is readable after the load whatever the files contain, exactly when nothing later in the layout
      covers it. */
  lemma ReadableIffUncovered(segments: seq<Segment>, m: Flat, i: nat, k: nat)
    requires Backed(segments) && i < |segments| && segments[i].loadable && k < segments[i].fileSize
    ensures (forall other | SameLayout(segments, other) && Backed(other) :: ReadsBack(other, m, i, k))
        <==> Uncovered(segments, i, k)
  {
    hide ReadsBack;
    if Uncovered(segments, i, k) {
      forall other | SameLayout(segments, other) && Backed(other)
        ensures ReadsBack(other, m, i, k)
      {
        UncoveredReadsBack(segments, other, m, i, k);
      }
    } else {
      CoveredIsLost(segments, m, i, k);
    }
  }

  lemma UncoveredReadsBack(segments: seq<Segment>, other: seq<Segment>, m: Flat, i: nat, k: nat)
    requires Backed(segments) && i < |segments| && segments[i].loadable && k < segments[i].fileSize
    requires SameLayout(segments, other) && Backed(other) && Uncovered(segments, i, k)
    ensures ReadsBack(other, m, i, k)
  {
    hide LandsOn, Extent, StoreAll, Stores;
    forall j | i < j < |other| ensures !Reaches(other[j], Plus(other[i].virtAddr, k)) {
      assert !Reaches(segments[j], Plus(segments[i].virtAddr, k));
    }
    FileInExtent(other[i]);
    SegmentReadable(other, m, i, k);
  }

  lemma FileInExtent(s: Segment)
    ensures s.fileSize <= Extent(s.virtAddr, s.fileSize)
  {
  }
}
