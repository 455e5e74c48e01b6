/**
 The format on the disk, byte by byte: where the boot sector, the two FATs, the directory slots and the bytes of
 files lie, and what stands there. Numbers take their low byte first.
 */
module OnDisk {
  import opened Base
  import opened Geometry
  import opened Streams
  import opened Directory
  import opened FatChains
  import opened Volume
  import opened Persist
  import opened Tree
  import opened Device
  import opened FileSystem

  /** Byte number `pos` of the disk, counted through blocks of `bs` bytes, is `x`. */
  predicate ByteIs(disk: Disk, bs: nat, pos: int, x: byte)
  {
    bs > 0 && pos >= 0 && pos / bs < |disk| && |disk[pos / bs]| == bs && disk[pos / bs][pos % bs] == x
  }

  /** A number of two bytes. */
  predicate WordIs(disk: Disk, bs: nat, pos: int, x: u16)
  {
    ByteIs(disk, bs, pos, x % 256) && ByteIs(disk, bs, pos + 1, x / 256)
  }

  // --- bytes of streams -------------------------------------------------------------------------------

  lemma StreamByte(cl: Clusters, ch: seq<nat>, cs: nat, i: nat)
    requires Uniform(cl, ch, cs) && cs > 0 && i < |ch| * cs
    ensures |Stream(cl, ch)| == |ch| * cs && i / cs < |ch| && |At(cl, ch[i / cs])| == cs
    ensures Stream(cl, ch)[i] == At(cl, ch[i / cs])[i % cs]
  {
    hide Stream, At;
    assert i == i / cs * cs + i % cs;
    MulOrder(i / cs, |ch|, cs);
    if i / cs >= |ch| { MulMono(|ch|, i / cs, cs); }
    StreamPart(cl, ch, i / cs, cs);
    assert Stream(cl, ch)[i / cs * cs..i / cs * cs + cs][i % cs] == Stream(cl, ch)[i];
  }

  /** Blocks in a row are read in a row. */
  lemma RunByte(disk: Disk, first: nat, n: nat, bs: nat, i: nat)
    requires bs > 0 && first + n <= |disk| && i < n * bs
    requires forall p :: 0 <= p < |disk| ==> |disk[p]| == bs
    ensures |Stream(disk, Run(first, n))| == n * bs
    ensures ByteIs(disk, bs, first * bs + i, Stream(disk, Run(first, n))[i])
  {
    hide Stream;
    RunAt(first, n);
    StreamByte(disk, Run(first, n), bs, i);
    hide Run;
    assert first * bs + i == (first + i / bs) * bs + i % bs by { assert i == i / bs * bs + i % bs; }
    DivModUnique(first * bs + i, bs, first + i / bs, i % bs);
  }

  /** A device of logical blocks has the bytes of its physical blocks, in the same order. */
  lemma PhysicalByte(blocks: seq<seq<byte>>, size: nat, k: nat, pos: nat, x: byte)
    requires size > 0 && k > 0 && forall p :: 0 <= p < |blocks| ==> |blocks[p]| == size
    requires ByteIs(LogicalView(blocks, k), size * k, pos, x)
    ensures ByteIs(blocks, size, pos, x)
  {
    hide LogicalView, Stream;
    var i, o := pos / (size * k), pos % (size * k);
    ViewLen(blocks, k);
    ViewAt(blocks, k, i);
    RunInside(i, k, |blocks|);
    RunByte(blocks, i * k, k, size, o);
    Nested(pos, size, k);
  }

  lemma Nested(pos: nat, size: nat, k: nat)
    requires size * k > 0
    ensures pos == pos / (size * k) * k * size + pos % (size * k) && pos % (size * k) < size * k
  {
    var i := pos / (size * k);
    assert i * (size * k) == i * k * size;
  }

  lemma ViewLen(blocks: seq<seq<byte>>, k: nat)
    requires k > 0
    ensures |LogicalView(blocks, k)| == |blocks| / k
  {
  }

  /** Byte `i`, or nothing behind the end. */
  function ByteOf(s: seq<byte>, i: nat): byte { if i < |s| then s[i] else 0 }

  /** Where byte `k` of an object with the clusters `ch` lies: cluster 2 is the first in the data region. */
  function Address(b: BootSector, ch: seq<nat>, k: nat): int
  {
    var size := b.blockSize * b.blocksPerCluster;
    if size == 0 || k / size >= |ch| then -1
    else (b.dataStartBlock + (ch[k / size] - 2) * b.blocksPerCluster) * b.blockSize + k % size
  }

  /** Byte `k` of an object stands at its place. */
  predicate Stands(b: BootSector, disk: Disk, ch: seq<nat>, k: nat, x: byte)
  {
    Address(b, ch, k) >= 0 && ByteIs(disk, b.blockSize, Address(b, ch, k), x)
  }

  lemma ClusterByte(b: BootSector, disk: Disk, c: nat, o: nat, x: byte)
    requires BootOk(b) && DiskOk(b, disk) && ROOT <= c <= MaxCluster(b) && o < b.blocksPerCluster * b.blockSize
    requires x == ByteOf(ClusterBytes(b, disk, c), o)
    ensures ByteIs(disk, b.blockSize, FirstBlock(b, c) * b.blockSize + o, x)
  {
    hide Stream, Run, BootOk, MaxCluster, FirstBlock;
    ClusterInside(b, c);
    BlockPositive(b);
    RunByte(disk, FirstBlock(b, c), b.blocksPerCluster, b.blockSize, o);
  }

  lemma BlockPositive(b: BootSector)
    requires BootOk(b)
    ensures b.blockSize > 0 && ClusterSize(b) > 0
  {
  }

  // --- objects ----------------------------------------------------------------------------------------

  /** The clusters of an object are linked in the FAT from its start to the end mark. */
  predicate LinkedFrom(fat: Fat, s: nat, ch: seq<nat>)
  {
    && ch != [] && ch[0] == s && (forall i :: 0 <= i < |ch| ==> 2 <= ch[i] < |fat|)
    && fat[ch[|ch| - 1]] == EndOfChain
    && forall i :: 0 <= i < |ch| - 1 ==> fat[ch[i]].Next? && fat[ch[i]].cluster == ch[i + 1]
  }

  lemma ObjectChain(v: Vol, s: nat)
    requires VolOk(v) && s in v.store
    ensures s in v.l.chains && LinkedFrom(v.fat, s, v.l.chains[s]) && Uniform(v.cl, v.l.chains[s], v.cs)
    ensures v.store[s] == Stream(v.cl, v.l.chains[s])
    ensures forall i :: 0 <= i < |v.l.chains[s]| ==> ROOT <= v.l.chains[s][i] <= v.max
  {
    hide Stream, BootOnDisk, FatsOnDisk, Uniform, ChainOk, LinkedFrom, Reserved, ClustersOk;
    assert ChainOk(v.fat, v.max, s, v.l.chains[s]);
    ChainUniform(v.cl, v.fat, v.max, v.cs, v.l, s);
    ChainLinks(v.fat, v.max, s, v.l.chains[s]);
  }

  lemma ChainLinks(fat: Fat, max: nat, s: nat, ch: seq<nat>)
    requires max < |fat| && ChainOk(fat, max, s, ch)
    ensures LinkedFrom(fat, s, ch) && forall i :: 0 <= i < |ch| ==> ROOT <= ch[i] <= max
  {
    assert Link(fat, ch, |ch| - 1);
    forall i | 0 <= i < |ch| - 1 ensures fat[ch[i]].Next? && fat[ch[i]].cluster == ch[i + 1] {
      assert Link(fat, ch, i);
    }
  }

  /** Every byte of an object is on the disk where its chain says. */
  lemma ObjectByte(v: Vol, disk: Disk, s: nat, k: nat)
    requires VolOk(v) && s in v.store && k < |v.store[s]| && BootOk(v.b) && DiskOk(v.b, disk)
    requires v.cl == ClustersOf(v.b, disk) && v.cs == ClusterSize(v.b) && v.max == MaxCluster(v.b)
    ensures s in v.l.chains && LinkedFrom(v.fat, s, v.l.chains[s])
    ensures Stands(v.b, disk, v.l.chains[s], k, v.store[s][k])
  {
    hide Stream, MaxCluster, BootOk, VolOk, ClustersOf, DiskOk, LinkedFrom;
    ObjectChain(v, s);
    BlockPositive(v.b);
    StreamLen(v.cl, v.l.chains[s], v.cs);
    ChainByte(v.b, disk, v.cl, v.l.chains[s], k);
  }

  lemma ChainByte(b: BootSector, disk: Disk, cl: Clusters, ch: seq<nat>, k: nat)
    requires BootOk(b) && DiskOk(b, disk) && cl == ClustersOf(b, disk)
    requires Uniform(cl, ch, ClusterSize(b)) && k < |Stream(cl, ch)| == |ch| * ClusterSize(b)
    requires forall i :: 0 <= i < |ch| ==> ROOT <= ch[i] <= MaxCluster(b)
    ensures Stands(b, disk, ch, k, Stream(cl, ch)[k])
  {
    hide Stream, MaxCluster, BootOk, ClustersOf, DiskOk, ByteIs, Stands, ClusterBytes, FirstBlock;
    var cs := ClusterSize(b);
    BlockPositive(b);
    StreamByte(cl, ch, cs, k);
    var c := ch[k / cs];
    ClusterAt(b, disk, c);
    ClusterTable(b, disk, c);
    ClusterByte(b, disk, c, k % cs, Stream(cl, ch)[k]);
    StandsAt(b, disk, ch, k, Stream(cl, ch)[k]);
  }

  lemma StandsAt(b: BootSector, disk: Disk, ch: seq<nat>, k: nat, x: byte)
    requires ClusterSize(b) > 0 && k / ClusterSize(b) < |ch| && ch[k / ClusterSize(b)] >= ROOT
    requires ByteIs(disk, b.blockSize, FirstBlock(b, ch[k / ClusterSize(b)]) * b.blockSize + k % ClusterSize(b), x)
    ensures Stands(b, disk, ch, k, x)
  {
  }

  lemma ClusterTable(b: BootSector, disk: Disk, c: nat)
    requires BootOk(b) && ROOT <= c <= MaxCluster(b)
    ensures c < |ClustersOf(b, disk)|
  {
    hide BootOk, ClusterBytes;
  }

  // --- a mounted file system ------------------------------------------------------------------------------

  function BootWord(b: BootSector, i: nat): u16
  {
    if i == 0 then b.blockSize else if i == 1 then b.blockCount else if i == 2 then b.blocksPerCluster
    else if i == 3 then b.fatStartBlock else if i == 4 then b.fatBlockCount else if i == 5 then b.fatCopies
    else if i == 6 then b.dataStartBlock else b.rootDirStartCluster
  }

  /** The boot sector: eight numbers at the start of block 0. */
  lemma BootBytes(b: BootSector, disk: Disk, i: nat)
    requires BootOk(b) && DiskOk(b, disk) && BootOnDisk(b, Meta(b, disk)) && i < 8
    ensures WordIs(disk, b.blockSize, 2 * i, BootWord(b, i))
  {
    hide EncodeBoot;
    BootEncoded(b, i);
    assert disk[0] == Meta(b, disk)[0] && disk[0][2 * i] == disk[0][..16][2 * i]
      && disk[0][2 * i + 1] == disk[0][..16][2 * i + 1];
    SmallDiv(2 * i, b.blockSize);
    SmallDiv(2 * i + 1, b.blockSize);
  }

  lemma BootEncoded(b: BootSector, i: nat)
    requires i < 8
    ensures EncodeBoot(b)[2 * i] == BootWord(b, i) % 256 && EncodeBoot(b)[2 * i + 1] == BootWord(b, i) / 256
  {
  }

  lemma SmallDiv(a: nat, b: nat)
    requires a < b
    ensures a / b == 0 && a % b == a
  {
    DivModUnique(a, b, 0, a);
  }

  /**
   The FAT: copy 0 from block 1 on and copy 1 right behind it, two bytes for each cluster, 0 for a free one and
   0xFFFF for the end of a chain.
   */
  lemma FatBytes(b: BootSector, disk: Disk, fat: Fat, copy: nat, c: nat)
    requires BootOk(b) && DiskOk(b, disk) && |fat| == FatLen(b) && FatsOnDisk(b, Meta(b, disk), fat)
    requires copy < 2 && c < |fat|
    ensures WordIs(disk, b.blockSize, (1 + copy * b.fatBlockCount) * b.blockSize + 2 * c,
      match fat[c] case Free => 0 case EndOfChain => 65535 case Next(n) => n)
  {
    hide FatsOnDisk, DiskOk, BootOk, FatLen, EncodeFat, ByteIs;
    FatByte(b, disk, fat, copy, 2 * c);
    FatByte(b, disk, fat, copy, 2 * c + 1);
    FatWord(fat, c);
  }

  lemma FatByte(b: BootSector, disk: Disk, fat: Fat, copy: nat, i: nat)
    requires BootOk(b) && DiskOk(b, disk) && |fat| == FatLen(b) && FatsOnDisk(b, Meta(b, disk), fat)
    requires copy < 2 && i < 2 * |fat|
    ensures ByteIs(disk, b.blockSize, (1 + copy * b.fatBlockCount) * b.blockSize + i, EncodeFat(fat)[i])
  {
    hide Stream, EncodeFat, Run, ByteIs, FatLen, FatStart;
    ClusterIdBounds(b);
    var meta := Meta(b, disk);
    FatPlace(b, copy);
    assert FatRegionBytes(b, meta, copy) == EncodeFat(fat);
    RunByte(meta, 1 + copy * b.fatBlockCount, b.fatBlockCount, b.blockSize, i);
    PrefixByte(disk, b.dataStartBlock, b.blockSize, (1 + copy * b.fatBlockCount) * b.blockSize + i, EncodeFat(fat)[i]);
  }

  lemma PrefixByte(disk: Disk, n: nat, bs: nat, pos: nat, x: byte)
    requires n <= |disk| && ByteIs(disk[..n], bs, pos, x)
    ensures ByteIs(disk, bs, pos, x)
  {
    assert disk[..n][pos / bs] == disk[pos / bs];
  }

  lemma FatPlace(b: BootSector, copy: nat)
    requires BootOk(b) && copy < 2
    ensures FatStart(b, copy) == 1 + copy * b.fatBlockCount
    ensures FatStart(b, copy) + b.fatBlockCount <= b.dataStartBlock <= b.blockCount
    ensures b.fatBlockCount * b.blockSize == b.blockSize * b.fatBlockCount
  {
  }

  lemma FatWord(fat: Fat, c: nat)
    requires c < |fat|
    ensures var x := match fat[c] case Free => 0 case EndOfChain => 65535 case Next(n) => n;
      EncodeFat(fat)[2 * c] == x % 256 && EncodeFat(fat)[2 * c + 1] == x / 256
  {
  }

  /** The boot sector is always on the disk, and the FAT in both copies unless it has changed since. */
  lemma MetaBytes(fs: MyFileSystem, i: nat, copy: nat, c: nat)
    requires fs.Intact() && i < 8 && copy < 2 && c < |fs.fat|
    ensures WordIs(fs.Disk(), fs.boot.blockSize, 2 * i, BootWord(fs.boot, i))
    ensures !fs.fatDirty ==>
      WordIs(fs.Disk(), fs.boot.blockSize, (1 + copy * fs.boot.fatBlockCount) * fs.boot.blockSize + 2 * c,
        match fs.fat[c] case Free => 0 case EndOfChain => 65535 case Next(n) => n)
  {
    hide Coherent, HandlesOk, Mountable, ClustersOf, LogicalView, BootOk, WordIs, FatOk, Holds, Represents, BootWord,
      FatsOnDisk, BootOnDisk, FatLen;
    BootBytes(fs.boot, fs.Disk(), i);
    if !fs.fatDirty { FatBytes(fs.boot, fs.Disk(), fs.fat, copy, c); }
  }

  /** Byte `k` of a file lies in its `k / cs`-th cluster. */
  lemma FileByte(fs: MyFileSystem, l: Loc, f: Fcb, k: nat)
    requires fs.Intact() && EntryAt(fs.view, l, f) && f.IsFile() && k < f.size
    ensures l in Files(fs.view) && k < |Files(fs.view)[l]|
    ensures var ch := ChainAt(fs.layout, f.start);
      LinkedFrom(fs.fat, f.start, ch) && Stands(fs.boot, fs.Disk(), ch, k, ByteOf(Files(fs.view)[l], k))
  {
    hide Coherent, HandlesOk, Mountable, VolOk, ClustersOf, LogicalView, LinkedFrom, Stands, Files, MaxCluster;
    ObjectFacts(fs.cs, fs.view, ROOT, l, f);
    ObjectByte(fs.V(), fs.Disk(), f.start, k);
  }

  /** The bytes of an entry: name 9, extension 3, attribute, 0, time, date, start cluster, size 4. */
  function FcbByte(f: Fcb, j: nat): byte
  {
    if j < 9 then f.name.base[j]
    else if j < 12 then f.name.ext[j - 9]
    else if j == 12 then f.attr
    else if j == 13 then f.reserved
    else if j == 14 then f.mtime % 256
    else if j == 15 then f.mtime / 256
    else if j == 16 then f.mdate % 256
    else if j == 17 then f.mdate / 256
    else if j == 18 then f.start % 256
    else if j == 19 then f.start / 256
    else if j == 20 then f.size % 256
    else if j == 21 then f.size / 256 % 256
    else if j == 22 then f.size / 65536 % 256
    else f.size / 16777216
  }

  lemma FcbBytes(f: Fcb)
    ensures forall j :: 0 <= j < 24 ==> EncodeFcb(f)[j] == FcbByte(f, j)
    ensures f.IsFile() <==> f.attr == 32
    ensures f.IsDir() <==> f.attr == 16
  {
    hide FcbByte, EncodeFcb, DecodeFcb;
    FcbRoundTrip(f);
    DecodedBytes(EncodeFcb(f));
  }

  /** Where slot `i` of a directory starts: as many slots of 24 bytes as fit into a cluster, then the next one. */
  function SlotStart(cs: nat, i: nat): nat { if cs < 24 then 0 else i / (cs / 24) * cs + i % (cs / 24) * 24 }

  /** Byte `j` of a slot in that state: an unused one starts with 0, a deleted one with 229. */
  predicate SlotByte(x: DirSlot, j: nat, y: byte)
  {
    match x
    case Unused => j == 0 ==> y == 0
    case Deleted => j == 0 ==> y == 229
    case Occupied(f) => y == FcbByte(f, j)
  }

  lemma SlotBytes(fs: MyFileSystem, l: Loc, j: nat)
    requires fs.Intact() && HasSlot(fs.view, l) && j < 24
    ensures exists y :: (SlotByte(fs.view.dirs[l.dir][l.idx], j, y)
      && Stands(fs.boot, fs.Disk(), ChainAt(fs.layout, l.dir), SlotStart(fs.cs, l.idx) + j, y))
    ensures LinkedFrom(fs.fat, l.dir, ChainAt(fs.layout, l.dir))
  {
    hide Coherent, HandlesOk, Mountable, VolOk, ClustersOf, LogicalView, LinkedFrom, Stands, MaxCluster, SlotByte,
      SlotStart;
    fs.DirObject(l.dir);
    var y := SlotRead(fs.cs, fs.store, fs.view, l, j);
    ObjectByte(fs.V(), fs.Disk(), l.dir, SlotStart(fs.cs, l.idx) + j);
  }

  lemma SlotRead(cs: nat, store: Store, v: View, l: Loc, j: nat) returns (y: byte)
    requires Represents(cs, store, v) && cs >= FCB_SIZE && HasSlot(v, l) && j < 24
    requires l.dir in store && |store[l.dir]| % cs == 0
    ensures SlotStart(cs, l.idx) + j < |store[l.dir]| && y == store[l.dir][SlotStart(cs, l.idx) + j]
    ensures SlotByte(v.dirs[l.dir][l.idx], j, y)
  {
    hide Represents, Slots, EncodeFcb, DecodeFcb, FcbByte;
    SlotGet(cs, store, v, l);
    var pos := SlotOffset(cs, l.idx);
    var bytes := store[l.dir][pos..pos + FCB_SIZE];
    y := store[l.dir][pos + j];
    assert y == bytes[j];
    DecodedBytes(bytes);
  }

  lemma DecodedBytes(b: seq<byte>)
    requires |b| == FCB_SIZE
    ensures forall j :: 0 <= j < 24 ==> b[j] == FcbByte(DecodeFcb(b), j)
  {
    hide DecodeU16, DecodeU32;
    WordBytes(b[14..16]);
    WordBytes(b[16..18]);
    WordBytes(b[18..20]);
    LongBytes(b[20..24]);
  }

  lemma WordBytes(b: seq<byte>)
    requires |b| == 2
    ensures DecodeU16(b) % 256 == b[0] && DecodeU16(b) / 256 == b[1]
  {
  }

  lemma LongBytes(b: seq<byte>)
    requires |b| == 4
    ensures var x := DecodeU32(b);
      x % 256 == b[0] && x / 256 % 256 == b[1] && x / 65536 % 256 == b[2] && x / 16777216 == b[3]
  {
    assert DecodeU32(b) == b[0] as int + 256 * b[1] as int + 65536 * b[2] as int + 16777216 * b[3] as int;
  }
}
