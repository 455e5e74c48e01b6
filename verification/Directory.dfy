/** File control blocks, their 24-byte form, and the packing of directory slots into a byte stream. */
module Directory {
  import opened Base
  import opened Geometry
  import opened Streams
  import opened Names
  import opened Text

  const DIR_ATTR: byte := 0x10
  const FILE_ATTR: byte := 0x20
  const SLOT_UNUSED: byte := 0x00
  const SLOT_DELETED: byte := 0xE5

  /** Packed modification time and date; their meaning is left to the caller. */
  datatype Stamp = Stamp(mtime: u16, mdate: u16)

  datatype NodeKind = File | Directory

  datatype Fcb = Fcb(name: ShortName, attr: byte, reserved: byte, mtime: u16, mdate: u16, start: u16, size: u32)
  {
    predicate IsFile() { attr == FILE_ATTR }

    predicate IsDir() { attr == DIR_ATTR }

    function Touch(now: Stamp): Fcb { this.(mtime := now.mtime, mdate := now.mdate) }
  }

  function NewFcb(name: ShortName, kind: NodeKind, start: u16, now: Stamp): Fcb
  {
    Fcb(name, if kind.File? then FILE_ATTR else DIR_ATTR, 0, now.mtime, now.mdate, start, 0)
  }

  datatype DirSlot = Unused | Deleted | Occupied(fcb: Fcb)

  // --- bytes ------------------------------------------------------------------------------------

  function EncodeU16(x: u16): seq<byte> { [x % 0x100, x / 0x100] }

  function DecodeU16(b: seq<byte>): u16
    requires |b| == 2
  {
    b[0] as int + 0x100 * (b[1] as int)
  }

  function EncodeU32(x: u32): seq<byte> { EncodeU16(x % 0x1_0000) + EncodeU16(x / 0x1_0000) }

  function DecodeU32(b: seq<byte>): u32
    requires |b| == 4
  {
    DecodeU16(b[..2]) as int + 0x1_0000 * (DecodeU16(b[2..]) as int)
  }

  function EncodeFcb(f: Fcb): (r: seq<byte>)
    ensures |r| == FCB_SIZE
  {
    f.name.base + f.name.ext + [f.attr, f.reserved]
    + EncodeU16(f.mtime) + EncodeU16(f.mdate) + EncodeU16(f.start) + EncodeU32(f.size)
  }

  function DecodeFcb(b: seq<byte>): Fcb
    requires |b| == FCB_SIZE
  {
    Fcb(RawName(b[..9], b[9..12]), b[12], b[13],
        DecodeU16(b[14..16]), DecodeU16(b[16..18]), DecodeU16(b[18..20]), DecodeU32(b[20..24]))
  }

  lemma U16RoundTrip(x: u16, b: seq<byte>)
    ensures DecodeU16(EncodeU16(x)) == x
    ensures |b| == 2 ==> EncodeU16(DecodeU16(b)) == b
  {
  }

  lemma U32RoundTrip(x: u32)
    ensures DecodeU32(EncodeU32(x)) == x
  {
    var lo, hi := EncodeU16(x % 0x1_0000), EncodeU16(x / 0x1_0000);
    assert (lo + hi)[..2] == lo && (lo + hi)[2..] == hi;
    U16RoundTrip(x % 0x1_0000, lo);
    U16RoundTrip(x / 0x1_0000, hi);
  }

  lemma FcbRoundTrip(f: Fcb)
    ensures DecodeFcb(EncodeFcb(f)) == f
  {
    var b := EncodeFcb(f);
    U16RoundTrip(f.mtime, []);
    U16RoundTrip(f.mdate, []);
    U16RoundTrip(f.start, []);
    U32RoundTrip(f.size);
    assert b[..9] == f.name.base && b[9..12] == f.name.ext;
    assert b[14..16] == EncodeU16(f.mtime) && b[16..18] == EncodeU16(f.mdate);
    assert b[18..20] == EncodeU16(f.start) && b[20..24] == EncodeU32(f.size);
  }

  function DecodeSlot(b: seq<byte>): DirSlot
    requires |b| == FCB_SIZE
  {
    if b[0] == SLOT_UNUSED then Unused
    else if b[0] == SLOT_DELETED then Deleted
    else Occupied(DecodeFcb(b))
  }

  /** The first name byte does not look like a slot mark. */
  predicate Storable(f: Fcb) { f.name.base[0] != SLOT_UNUSED && f.name.base[0] != SLOT_DELETED }

  function DeletedBytes(): seq<byte> { [SLOT_DELETED] + Zeros(FCB_SIZE - 1) }

  /** A written FCB reads back as an occupied slot with the same value, unless its name is a slot mark. */
  lemma SlotRoundTrip(f: Fcb)
    ensures DecodeSlot(EncodeFcb(f)) == Occupied(f) <==> Storable(f)
    ensures DecodeSlot(DeletedBytes()) == Deleted
    ensures DecodeSlot(Zeros(FCB_SIZE)) == Unused
  {
    FcbRoundTrip(f);
    assert EncodeFcb(f)[0] == f.name.base[0];
  }

  lemma DecodedIsStorable(b: seq<byte>)
    requires |b| == FCB_SIZE
    ensures DecodeSlot(b).Occupied? ==> Storable(DecodeSlot(b).fcb)
  {
  }

  // --- slots in a stream ------------------------------------------------------------------------

  /** Slots per cluster; what is left of the cluster is not used. */
  function PerCluster(cs: nat): nat { cs / FCB_SIZE }

  /** A cluster has as many slots of 24 bytes as fit into it. */
  lemma SlotsFill(cs: nat)
    ensures PerCluster(cs) * 24 <= cs < (PerCluster(cs) + 1) * 24
  {
  }

  function SlotOffset(cs: nat, i: nat): nat
    requires cs >= FCB_SIZE
  {
    i / PerCluster(cs) * cs + i % PerCluster(cs) * FCB_SIZE
  }

  function SlotCount(cs: nat, len: nat): nat
    requires cs >= FCB_SIZE
  {
    len / cs * PerCluster(cs)
  }

  /** The slot that a sequential scan meets as number `j` of cluster `k` is slot `k * PerCluster + j`. */
  lemma ScanPosition(cs: nat, k: nat, j: nat)
    requires cs >= FCB_SIZE && j < PerCluster(cs)
    ensures SlotOffset(cs, k * PerCluster(cs) + j) == k * cs + j * FCB_SIZE
    ensures j * FCB_SIZE + FCB_SIZE <= cs
  {
    DivModUnique(k * PerCluster(cs) + j, PerCluster(cs), k, j);
    assert cs == cs / FCB_SIZE * FCB_SIZE + cs % FCB_SIZE;
    MulOrder(j, PerCluster(cs), FCB_SIZE);
  }

  /** A slot never straddles two clusters and never leaves the stream. */
  lemma SlotInside(cs: nat, len: nat, i: nat)
    requires cs >= FCB_SIZE && i < SlotCount(cs, len)
    ensures i / PerCluster(cs) < len / cs && i % PerCluster(cs) * FCB_SIZE + FCB_SIZE <= cs
    ensures SlotOffset(cs, i) + FCB_SIZE <= i / PerCluster(cs) * cs + cs <= len
  {
    var per := PerCluster(cs);
    assert i == i / per * per + i % per;
    ScanPosition(cs, i / per, i % per);
    if i / per >= len / cs {
      MulMono(len / cs, i / per, per);
    }
    MulOrder(i / per, len / cs, cs);
    assert len == len / cs * cs + len % cs;
  }

  /** Different slots share no byte. */
  lemma SlotsApart(cs: nat, i: nat, j: nat)
    requires cs >= FCB_SIZE && i < j
    ensures SlotOffset(cs, i) + FCB_SIZE <= SlotOffset(cs, j)
  {
    hide SlotOffset, PerCluster;
    var a, b := SlotPlace(cs, i);
    var c, d := SlotPlace(cs, j);
    RowMajor(a, b, c, d, PerCluster(cs));
    LaterPlace(a, b, c, d, cs);
  }

  /** The cluster of a slot and its number there. */
  lemma SlotPlace(cs: nat, i: nat) returns (a: nat, b: nat)
    requires cs >= FCB_SIZE
    ensures SlotOffset(cs, i) == a * cs + b * FCB_SIZE && b < PerCluster(cs) && i == a * PerCluster(cs) + b
    ensures b * FCB_SIZE + FCB_SIZE <= cs
  {
    var per := PerCluster(cs);
    DivMono(FCB_SIZE, cs, FCB_SIZE);
    a, b := i / per, i % per;
    assert i == a * per + b;
    ScanPosition(cs, a, b);
  }

  lemma LaterPlace(a: nat, b: nat, c: nat, d: nat, cs: nat)
    requires a < c || (a == c && b < d)
    requires b * FCB_SIZE + FCB_SIZE <= cs
    ensures a * cs + b * FCB_SIZE + FCB_SIZE <= c * cs + d * FCB_SIZE
  {
    if a < c { MulOrder(a, c, cs); }
  }

  /** Counting row by row, an earlier place lies in an earlier row or further left in the same. */
  lemma RowMajor(a: nat, b: nat, c: nat, d: nat, per: nat)
    requires b < per && d < per && a * per + b < c * per + d
    ensures a < c || (a == c && b < d)
  {
    if c < a { MulOrder(c, a, per); }
  }

  /** Slots behind the last cluster start behind the stream. */
  lemma SlotOutside(cs: nat, len: nat, i: nat)
    requires cs >= FCB_SIZE && len % cs == 0 && i >= SlotCount(cs, len)
    ensures SlotOffset(cs, i) >= len
  {
    var per := PerCluster(cs);
    assert i == i / per * per + i % per;
    if i / per < len / cs { MulOrder(i / per, len / cs, per); }
    MulMono(len / cs, i / per, cs);
    assert len == len / cs * cs + len % cs;
  }

  function SlotBytes(cs: nat, s: seq<byte>, i: nat): (r: seq<byte>)
    requires cs >= FCB_SIZE && i < SlotCount(cs, |s|)
    ensures |r| == FCB_SIZE
  {
    SlotInside(cs, |s|, i);
    s[SlotOffset(cs, i)..SlotOffset(cs, i) + FCB_SIZE]
  }

  /** Index of slot `j` of the `k`-th cluster. */
  function SlotNo(cs: nat, k: nat, j: nat): nat { k * PerCluster(cs) + j }

  /** Counting through the slots of a directory of `n` clusters. */
  lemma SlotNoSteps(cs: nat, k: nat, j: nat, n: nat)
    ensures SlotNo(cs, 0, 0) == 0
    ensures SlotNo(cs, k, j + 1) == SlotNo(cs, k, j) + 1
    ensures SlotNo(cs, k, PerCluster(cs)) == SlotNo(cs, k + 1, 0)
    ensures SlotNo(cs, n, 0) == n * PerCluster(cs)
  {
    assert (k + 1) * PerCluster(cs) == k * PerCluster(cs) + PerCluster(cs);
  }

  lemma SlotNoLess(cs: nat, k: nat, n: nat)
    requires cs >= FCB_SIZE && k < n
    ensures PerCluster(cs) > 0 && SlotNo(cs, k, 0) < n * PerCluster(cs)
  {
    DivMono(FCB_SIZE, cs, FCB_SIZE);
    MulOrder(k, n, PerCluster(cs));
  }

  /** Slot `j` of the `k`-th cluster, cut out of that cluster. */
  lemma SlotInChunk(cs: nat, s: seq<byte>, k: nat, j: nat)
    requires cs >= FCB_SIZE && j < PerCluster(cs) && k < |s| / cs
    ensures |Chunk(s, k, cs)| == cs && j * FCB_SIZE + FCB_SIZE <= cs
    ensures SlotNo(cs, k, j) < |Slots(cs, s)|
    ensures Slots(cs, s)[SlotNo(cs, k, j)] == DecodeSlot(Chunk(s, k, cs)[j * FCB_SIZE..j * FCB_SIZE + FCB_SIZE])
  {
    hide PerCluster, SlotNo, SlotOffset, SlotCount, Chunk, DecodeSlot;
    SlotOfCluster(cs, |s|, k, j);
    ChunkIs(s, k, cs);
    SlotCut(cs, s, SlotNo(cs, k, j), k * cs, j * FCB_SIZE);
  }

  /** A slot `r` bytes into the cluster that starts at `base`. */
  lemma SlotCut(cs: nat, s: seq<byte>, i: nat, base: nat, r: nat)
    requires cs >= FCB_SIZE && i < SlotCount(cs, |s|) && SlotOffset(cs, i) == base + r
    requires base + cs <= |s| && r + FCB_SIZE <= cs
    ensures Slots(cs, s)[i] == DecodeSlot(s[base..base + cs][r..r + FCB_SIZE])
  {
    hide PerCluster, SlotOffset, SlotCount, DecodeSlot;
    SliceInside(s, base, cs, r, FCB_SIZE);
  }

  lemma SlotOfCluster(cs: nat, len: nat, k: nat, j: nat)
    requires cs >= FCB_SIZE && j < PerCluster(cs) && k < len / cs
    ensures SlotNo(cs, k, j) < SlotCount(cs, len) && SlotOffset(cs, SlotNo(cs, k, j)) == k * cs + j * FCB_SIZE
    ensures k * cs + cs <= len && j * FCB_SIZE + FCB_SIZE <= cs
  {
    ScanPosition(cs, k, j);
    hide SlotOffset;
    MulOrder(k, len / cs, PerCluster(cs));
    MulOrder(k, len / cs, cs);
    assert len == len / cs * cs + len % cs;
  }

  /** The entries of a directory take no more bytes than its clusters have. */
  lemma SlotsFit(n: nat, k: nat, cs: nat)
    requires n <= k
    ensures FCB_SIZE * (n * PerCluster(cs)) <= k * cs
  {
    var per := PerCluster(cs);
    QuotientAtMost(cs, FCB_SIZE);
    MulMono(n, k, cs);
    MulMono(per * FCB_SIZE, cs, n);
    assert n * (per * FCB_SIZE) == FCB_SIZE * (n * per);
  }

  /** All slots of a directory, decoded. */
  function Slots(cs: nat, s: seq<byte>): (r: seq<DirSlot>)
    requires cs >= FCB_SIZE
    ensures |r| == SlotCount(cs, |s|)
  {
    seq(SlotCount(cs, |s|), i requires 0 <= i < SlotCount(cs, |s|) => DecodeSlot(SlotBytes(cs, s, i)))
  }

  /** Writing the bytes of one slot changes exactly that slot. */
  lemma SlotWrite(cs: nat, s: seq<byte>, i: nat, bytes: seq<byte>)
    requires cs >= FCB_SIZE && i < SlotCount(cs, |s|) && |bytes| == FCB_SIZE
    ensures SlotOffset(cs, i) + FCB_SIZE <= |s|
    ensures Slots(cs, Splice(s, SlotOffset(cs, i), bytes)) == Slots(cs, s)[i := DecodeSlot(bytes)]
  {
    SlotInside(cs, |s|, i);
    var off := SlotOffset(cs, i);
    var s' := Splice(s, off, bytes);
    forall j | 0 <= j < SlotCount(cs, |s|)
      ensures SlotBytes(cs, s', j) == if j == i then bytes else SlotBytes(cs, s, j)
    {
      SlotInside(cs, |s|, j);
      if j < i { SlotsApart(cs, j, i); }
      if i < j { SlotsApart(cs, i, j); }
      hide SlotOffset, SlotCount, Splice;
      SpliceRead(s, off, bytes, SlotOffset(cs, j), SlotOffset(cs, j) + FCB_SIZE);
    }
  }

  lemma SlotFits(cs: nat, len: nat, i: nat)
    requires cs >= FCB_SIZE && i < SlotCount(cs, len)
    ensures SlotOffset(cs, i) + FCB_SIZE <= len
  {
    SlotInside(cs, len, i);
  }

  lemma SlotCountGrows(cs: nat, len: nat)
    requires cs >= FCB_SIZE && len % cs == 0
    ensures SlotCount(cs, len + cs) == SlotCount(cs, len) + PerCluster(cs)
  {
    var n := len / cs;
    assert len == n * cs && (n + 1) * cs == n * cs + cs;
    DivModUnique(len + cs, cs, n + 1, 0);
    assert (n + 1) * PerCluster(cs) == n * PerCluster(cs) + PerCluster(cs);
  }

  function NoSlots(n: nat): seq<DirSlot> { seq(n, _ => Unused) }

  /** A directory that grows by a zeroed cluster gets unused slots behind the old ones. */
  lemma SlotExtend(cs: nat, s: seq<byte>)
    requires cs >= FCB_SIZE && |s| % cs == 0
    ensures Slots(cs, s + Zeros(cs)) == Slots(cs, s) + NoSlots(PerCluster(cs))
  {
    var s' := s + Zeros(cs);
    SlotCountGrows(cs, |s|);
    hide PerCluster, SlotCount, SlotOffset;
    forall i | 0 <= i < SlotCount(cs, |s'|)
      ensures SlotBytes(cs, s', i) == if i < SlotCount(cs, |s|) then SlotBytes(cs, s, i) else Zeros(FCB_SIZE)
    {
      SlotFits(cs, |s'|, i);
      if i < SlotCount(cs, |s|) {
        SlotFits(cs, |s|, i);
      } else {
        SlotOutside(cs, |s|, i);
      }
    }
    SlotRoundTrip(NewFcb(RawName(seq(9, _ => 32), seq(3, _ => 32)), File, 0, Stamp(0, 0)));
  }

  lemma SlotsOfZeros(cs: nat)
    requires cs >= FCB_SIZE
    ensures Slots(cs, Zeros(cs)) == NoSlots(PerCluster(cs))
  {
    SlotExtend(cs, []);
    assert [] + Zeros(cs) == Zeros(cs);
    assert Slots(cs, []) == [];
  }

  /** Number of occupied slots. */
  function Count(slots: seq<DirSlot>): nat
  {
    if slots == [] then 0
    else Count(slots[..|slots| - 1]) + if slots[|slots| - 1].Occupied? then 1 else 0
  }

  lemma {:induction false} CountUpdate(slots: seq<DirSlot>, i: nat, x: DirSlot)
    requires i < |slots|
    ensures Count(slots[i := x]) ==
      Count(slots) - (if slots[i].Occupied? then 1 else 0) + (if x.Occupied? then 1 else 0)
  {
    var n := |slots| - 1;
    if i == n {
      assert slots[i := x][..n] == slots[..n];
    } else {
      CountUpdate(slots[..n], i, x);
      assert slots[i := x][..n] == slots[..n][i := x];
    }
  }

  function OccupiedAt(slots: seq<DirSlot>): set<nat> { set i: nat | i < |slots| && slots[i].Occupied? }

  /** It is the number of indices at which there is an entry. */
  lemma {:induction false} CountIs(slots: seq<DirSlot>)
    ensures Count(slots) == |OccupiedAt(slots)|
  {
    if slots != [] {
      var n := |slots| - 1;
      CountIs(slots[..n]);
      assert OccupiedAt(slots) == OccupiedAt(slots[..n]) + if slots[n].Occupied? then {n} else {};
      assert n !in OccupiedAt(slots[..n]);
    }
  }

  /** Occupied slots among the first `i`. */
  function CountTo(slots: seq<DirSlot>, i: nat): nat { if i <= |slots| then Count(slots[..i]) else 0 }

  lemma CountPrefix(slots: seq<DirSlot>, i: nat)
    requires i <= |slots|
    ensures CountTo(slots, 0) == 0 && CountTo(slots, |slots|) == Count(slots)
    ensures i < |slots| ==> CountTo(slots, i + 1) == CountTo(slots, i) + if slots[i].Occupied? then 1 else 0
  {
    assert slots[..|slots|] == slots;
    if i < |slots| {
      assert slots[..i + 1][..i] == slots[..i];
    }
  }

  lemma {:induction false} CountExtend(slots: seq<DirSlot>, n: nat)
    ensures Count(slots + NoSlots(n)) == Count(slots)
  {
    if n == 0 {
      assert slots + NoSlots(0) == slots;
    } else {
      CountExtend(slots, n - 1);
      var s := slots + NoSlots(n);
      assert s[..|s| - 1] == slots + NoSlots(n - 1);
    }
  }

  lemma {:induction false} CountBound(slots: seq<DirSlot>)
    ensures Count(slots) <= |slots|
    ensures Count(slots) == 0 <==> forall i :: 0 <= i < |slots| ==> !slots[i].Occupied?
  {
    if slots != [] {
      CountBound(slots[..|slots| - 1]);
    }
  }

  // --- searching ------------------------------------------------------------------------------------

  /** A slot that shows `key` as its name. */
  predicate Shows(x: DirSlot, key: Str) { x.Occupied? && ToStr(x.fcb.name) == key }

  /** The first slot from `i` on that shows `key`. */
  function FindName(slots: seq<DirSlot>, key: Str, i: nat): (r: Option<nat>)
    requires i <= |slots|
    ensures r.Some? ==> i <= r.value < |slots| && Shows(slots[r.value], key)
    ensures forall j :: i <= j < |slots| && (r.Some? ==> j < r.value) ==> !Shows(slots[j], key)
    decreases |slots| - i
  {
    if i == |slots| then None else if Shows(slots[i], key) then Some(i) else FindName(slots, key, i + 1)
  }

  /** The first slot from `i` on that holds no entry. */
  function FindFree(slots: seq<DirSlot>, i: nat): (r: Option<nat>)
    requires i <= |slots|
    ensures r.Some? ==> i <= r.value < |slots| && !slots[r.value].Occupied?
    ensures forall j :: i <= j < |slots| && (r.Some? ==> j < r.value) ==> slots[j].Occupied?
    decreases |slots| - i
  {
    if i == |slots| then None else if !slots[i].Occupied? then Some(i) else FindFree(slots, i + 1)
  }

  /** No two entries of a directory show the same name. */
  predicate NamesDistinct(slots: seq<DirSlot>)
  {
    forall i, j :: 0 <= i < j < |slots| && slots[i].Occupied? && slots[j].Occupied? ==>
      ToStr(slots[i].fcb.name) != ToStr(slots[j].fcb.name)
  }

  /** In a directory with distinct names, looking a name up finds the one entry that has it, or none exists. */
  lemma FindNameIsUnique(slots: seq<DirSlot>, key: Str, i: nat)
    requires NamesDistinct(slots) && i < |slots|
    ensures FindName(slots, key, 0) == Some(i) <==> Shows(slots[i], key)
  {
  }
}
