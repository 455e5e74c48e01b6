/**
 Disk geometry: accepted configurations, the sizing of the FAT region, and the block addresses of
 the boot block, the two FATs and the clusters.
 */
module Geometry {
  import opened Base

  const ROOT: nat := 2
  const FCB_SIZE: nat := 24
  const BOOT_SIZE: nat := 16

  datatype FsConfig = FsConfig(blockSize: u16, blockCount: u16, blocksPerCluster: u16)

  datatype BootSector = BootSector(
    blockSize: u16,
    blockCount: u16,
    blocksPerCluster: u16,
    fatStartBlock: u16,
    fatBlockCount: u16,
    fatCopies: u16,
    dataStartBlock: u16,
    rootDirStartCluster: u16)

  predicate IsPow2(n: nat)
  {
    n == 1 || (n > 1 && n % 2 == 0 && IsPow2(n / 2))
  }

  function Power(k: nat): nat { if k == 0 then 1 else 2 * Power(k - 1) }

  /** What the check accepts are the powers of two. */
  lemma {:induction false} Pow2Iff(n: nat)
    ensures IsPow2(n) <==> exists k: nat :: n == Power(k)
  {
    assert 1 == Power(0);
    forall k: nat | n == Power(k) ensures IsPow2(n) {
      PowerPositive(k);
      if k > 0 {
        Pow2Iff(n / 2);
        assert n / 2 == Power(k - 1);
      }
    }
    if IsPow2(n) && n > 1 {
      Pow2Iff(n / 2);
      var k: nat :| n / 2 == Power(k);
      assert n == Power(k + 1);
      assert exists k: nat :: n == Power(k);
    }
    assert n == 1 ==> n == Power(0);
  }

  lemma {:induction false} PowerPositive(k: nat)
    ensures Power(k) > 0 && (k > 0 ==> Power(k) > 1)
  {
    if k > 0 { PowerPositive(k - 1); }
  }

  // --- FAT sizing ----------------------------------------------------------------------------

  /** Blocks that one FAT needs when the FAT region currently takes `fatBlocks` blocks a copy. */
  function NeededFatBlocks(bs: u16, bc: u16, copies: u16, bpc: u16, fatBlocks: nat): nat
    requires bs > 0 && bpc > 0
    requires 1 + copies * fatBlocks <= bc
  {
    DivCeil((ROOT + (bc - (1 + copies * fatBlocks)) / bpc) * 2, bs)
  }

  /** The FATs would leave no block for data. */
  predicate NoRoom(bc: u16, copies: u16, fatBlocks: nat) { 1 + copies * fatBlocks >= bc }

  /** The sizing loop as a recursion; the remainder is the source's cast to 16 bits. */
  function SizeFat(bs: u16, bc: u16, copies: u16, bpc: u16, fatBlocks: u16): u16
    requires bs > 0 && bpc > 0
    decreases 0x1_0000 - fatBlocks
  {
    if NoRoom(bc, copies, fatBlocks) then
      fatBlocks
    else
      var needed := NeededFatBlocks(bs, bc, copies, bpc, fatBlocks) % 0x1_0000;
      if needed <= fatBlocks then fatBlocks else SizeFat(bs, bc, copies, bpc, needed)
  }

  function FatBlockCount(bs: u16, bc: u16, copies: u16, bpc: u16): u16
    requires bs > 0 && bpc > 0
  {
    SizeFat(bs, bc, copies, bpc, 1)
  }

  method GetFatBlockCount(bs: u16, bc: u16, copies: u16, bpc: u16) returns (fatBlocks: u16)
    requires bs > 0 && bpc > 0
    ensures fatBlocks == FatBlockCount(bs, bc, copies, bpc)
  {
    hide DivCeil;
    fatBlocks := 1;
    while true
      invariant FatBlockCount(bs, bc, copies, bpc) == SizeFat(bs, bc, copies, bpc, fatBlocks)
      decreases 0x1_0000 - fatBlocks
    {
      var dataStart := 1 + copies * fatBlocks;
      if dataStart >= bc {
        return;
      }
      var dataClusters := (bc - dataStart) / bpc;
      var fatBytes := (ROOT + dataClusters) * 2;
      var needed := DivCeil(fatBytes, bs) % 0x1_0000;
      if needed <= fatBlocks {
        return;
      }
      fatBlocks := needed;
    }
  }

  /** A larger FAT leaves fewer clusters to address. */
  lemma NeededShrinks(bs: u16, bc: u16, copies: u16, bpc: u16, f: nat, f': nat)
    requires bs > 0 && bpc > 0 && f <= f'
    requires 1 + copies * f' <= bc
    ensures 1 + copies * f <= bc
    ensures NeededFatBlocks(bs, bc, copies, bpc, f') <= NeededFatBlocks(bs, bc, copies, bpc, f)
  {
    MulMono(f, f', copies);
    DivMono(bc - (1 + copies * f'), bc - (1 + copies * f), bpc);
    DivCeilMono((ROOT + (bc - (1 + copies * f')) / bpc) * 2, (ROOT + (bc - (1 + copies * f)) / bpc) * 2, bs);
  }

  /** With blocks that hold a boot sector the cast to 16 bits never loses anything. */
  lemma NeededFits(bs: u16, bc: u16, copies: u16, bpc: u16, f: nat)
    requires bs >= BOOT_SIZE && bpc > 0
    requires 1 + copies * f <= bc
    ensures NeededFatBlocks(bs, bc, copies, bpc, f) < 0x1_0000
  {
    var clusters := (bc - (1 + copies * f)) / bpc;
    DivMono(bc - (1 + copies * f), bc, bpc);
    QuotientAtMost(bc, bpc);
    var bytes := (ROOT + clusters) * 2;
    DivCeilBounds(bytes, bs);
    MulMono(BOOT_SIZE, bs, DivCeil(bytes, bs));
  }

  lemma QuotientAtMost(a: nat, b: nat)
    requires b > 0
    ensures a / b <= a && a / b * b <= a
  {
    assert a == a / b * b + a % b;
    MulMono(1, b, a / b);
  }

  /**
   The loop reassigns its variable at most once: the answer is the first guess 1 or the first
   computed demand. It never truncates, and a FAT of that size addresses every data cluster.
   */
  lemma FatSizing(bs: u16, bc: u16, copies: u16, bpc: u16)
    requires bs >= BOOT_SIZE && bpc > 0
    ensures var f := FatBlockCount(bs, bc, copies, bpc);
      && f == (if 1 + copies >= bc then 1 else Max(1, NeededFatBlocks(bs, bc, copies, bpc, 1)))
      && (1 + copies * f < bc ==> (ROOT + (bc - (1 + copies * f)) / bpc) * 2 <= f * bs)
      && (f > 1 ==> 1 + copies < bc && (f - 1) * bs < (2 + (bc - (1 + copies)) / bpc) * 2)
  {
    hide DivCeil, NeededFatBlocks, FatBlockCount;
    SizingSteps(bs, bc, copies, bpc);
    if 1 + copies * 1 < bc {
      NeededIsLeast(bs, bc, copies, bpc);
      NeededCovers(bs, bc, copies, bpc, 1);
      var n1 := NeededFatBlocks(bs, bc, copies, bpc, 1);
      if n1 > 1 && 1 + copies * n1 < bc {
        NeededShrinks(bs, bc, copies, bpc, 1, n1);
        NeededCovers(bs, bc, copies, bpc, n1);
        MulMono(NeededFatBlocks(bs, bc, copies, bpc, n1), n1, bs);
      } else if n1 <= 1 {
        MulMono(n1, 1, bs);
      }
    }
  }

  /** The loop ends with its first guess or with what that guess demands. */
  lemma SizingSteps(bs: u16, bc: u16, copies: u16, bpc: u16)
    requires bs >= BOOT_SIZE && bpc > 0
    ensures FatBlockCount(bs, bc, copies, bpc) ==
      if 1 + copies >= bc then 1 else Max(1, NeededFatBlocks(bs, bc, copies, bpc, 1))
  {
    hide DivCeil, NeededFatBlocks, SizeFat;
    FirstGuess(bs, bc, copies, bpc);
    SizeStep(bs, bc, copies, bpc, 1);
    if 1 + copies < bc {
      NeededFits(bs, bc, copies, bpc, 1);
      var n1 := NeededFatBlocks(bs, bc, copies, bpc, 1);
      if n1 > 1 {
        SizeStep(bs, bc, copies, bpc, n1);
        if 1 + copies * n1 < bc { NeededShrinks(bs, bc, copies, bpc, 1, n1); }
      }
    }
  }

  lemma FirstGuess(bs: u16, bc: u16, copies: u16, bpc: u16)
    requires bs > 0 && bpc > 0
    ensures FatBlockCount(bs, bc, copies, bpc) == SizeFat(bs, bc, copies, bpc, 1)
  {
    hide SizeFat;
  }

  /** One round of the sizing loop, where the cast loses nothing. */
  lemma SizeStep(bs: u16, bc: u16, copies: u16, bpc: u16, f: u16)
    requires bs >= BOOT_SIZE && bpc > 0
    ensures NoRoom(bc, copies, f) ==> SizeFat(bs, bc, copies, bpc, f) == f
    ensures !NoRoom(bc, copies, f) ==>
      var needed := NeededFatBlocks(bs, bc, copies, bpc, f);
      && needed < 0x1_0000
      && SizeFat(bs, bc, copies, bpc, f) == if needed <= f then f else SizeFat(bs, bc, copies, bpc, needed)
  {
    if !NoRoom(bc, copies, f) {
      NeededFits(bs, bc, copies, bpc, f);
      SizeUnfold(bs, bc, copies, bpc, f, NeededFatBlocks(bs, bc, copies, bpc, f));
    }
  }

  lemma SizeUnfold(bs: u16, bc: u16, copies: u16, bpc: u16, f: u16, needed: nat)
    requires bs > 0 && bpc > 0 && !NoRoom(bc, copies, f) && 1 + copies * f <= bc && needed < 0x1_0000
    requires needed == NeededFatBlocks(bs, bc, copies, bpc, f)
    ensures SizeFat(bs, bc, copies, bpc, f) == if needed <= f then f else SizeFat(bs, bc, copies, bpc, needed)
  {
    hide NoRoom, NeededFatBlocks;
    assert needed % 0x1_0000 == needed;
  }

  lemma NeededIsLeast(bs: u16, bc: u16, copies: u16, bpc: u16)
    requires bs > 0 && bpc > 0 && 1 + copies * 1 < bc
    ensures NeededFatBlocks(bs, bc, copies, bpc, 1) > 0
    ensures (NeededFatBlocks(bs, bc, copies, bpc, 1) - 1) * bs < (2 + (bc - (1 + copies)) / bpc) * 2
  {
    var bytes := (2 + (bc - (1 + copies)) / bpc) * 2;
    DivCeilBounds(bytes, bs);
    assert (DivCeil(bytes, bs) - 1) * bs == DivCeil(bytes, bs) * bs - bs;
  }

  lemma NeededCovers(bs: u16, bc: u16, copies: u16, bpc: u16, f: nat)
    requires bs > 0 && bpc > 0 && 1 + copies * f <= bc
    ensures (ROOT + (bc - (1 + copies * f)) / bpc) * 2 <= NeededFatBlocks(bs, bc, copies, bpc, f) * bs
  {
    DivCeilBounds((ROOT + (bc - (1 + copies * f)) / bpc) * 2, bs);
  }

  // --- configuration check --------------------------------------------------------------------

  function FatEntryCount(bs: u16, fatBlocks: u16): nat { bs * fatBlocks / 2 }

  function Validate(cfg: FsConfig): Outcome
  {
    var FsConfig(bs, bc, bpc) := cfg;
    if bs == 0 then Fail(InvalidConfig)
    else if !IsPow2(bs) then Fail(InvalidConfig)
    else if bs < BOOT_SIZE then Fail(InvalidConfig)
    else if bpc == 0 then Fail(InvalidConfig)
    else if !IsPow2(bpc) then Fail(InvalidConfig)
    else if bs * bpc < FCB_SIZE then Fail(InvalidConfig)
    else
      var fatBlocks := FatBlockCount(bs, bc, 2, bpc);
      var dataStart := 1 + 2 * fatBlocks;
      if dataStart >= bc then Fail(InvalidConfig)
      else if bc - dataStart < bpc then Fail(InvalidConfig)
      else
        var dataClusters := (bc - dataStart) / bpc;
        if ROOT + dataClusters - 1 > 0xFFFF then Fail(InvalidConfig)
        else if FatEntryCount(bs, fatBlocks) < ROOT + dataClusters then Fail(InvalidConfig)
        else Pass
  }

  /**
   The accepted configurations, exactly: block sizes from 16 bytes on, clusters of 24 bytes or more. The 16-bit
   cluster id check and the FAT capacity check at the end of the source's validation do not occur here: they can
   never fail.
   */
  lemma ValidateIff(cfg: FsConfig)
    ensures Validate(cfg).Pass? <==>
      && IsPow2(cfg.blockSize) && cfg.blockSize >= 16 && IsPow2(cfg.blocksPerCluster)
      && cfg.blockSize * cfg.blocksPerCluster >= 24
      && 1 + 2 * FatBlockCount(cfg.blockSize, cfg.blockCount, 2, cfg.blocksPerCluster)
           + cfg.blocksPerCluster <= cfg.blockCount
  {
    var FsConfig(bs, bc, bpc) := cfg;
    if bs >= BOOT_SIZE && bpc > 0 {
      FatSizing(bs, bc, 2, bpc);
      var f := FatBlockCount(bs, bc, 2, bpc);
      if 1 + 2 * f < bc {
        QuotientAtMost(bc - (1 + 2 * f), bpc);
        assert f * bs == bs * f;
      }
    }
  }

  // --- addresses ------------------------------------------------------------------------------

  function BootOf(cfg: FsConfig): (b: BootSector)
    requires Validate(cfg).Pass?
    ensures BootOk(b)
  {
    ValidateIff(cfg);
    FatSizing(cfg.blockSize, cfg.blockCount, 2, cfg.blocksPerCluster);
    var f := FatBlockCount(cfg.blockSize, cfg.blockCount, 2, cfg.blocksPerCluster);
    Pow2Even(cfg.blockSize);
    assert f * cfg.blockSize == cfg.blockSize * f;
    BootSector(cfg.blockSize, cfg.blockCount, cfg.blocksPerCluster, 1, f, 2, 1 + 2 * f, ROOT)
  }

  lemma ValidateError(cfg: FsConfig)
    ensures Validate(cfg).Fail? ==> Validate(cfg).error == InvalidConfig
  {
  }

  lemma BootFields(cfg: FsConfig)
    requires Validate(cfg).Pass?
    ensures cfg.blockSize > 0 && cfg.blocksPerCluster > 0
    ensures BootOf(cfg).blockCount == cfg.blockCount
    ensures var f := FatBlockCount(cfg.blockSize, cfg.blockCount, 2, cfg.blocksPerCluster);
      && 1 + f * 2 < 0x1_0000 && BootOk(BootOf(cfg))
      && BootOf(cfg) == BootSector(cfg.blockSize, cfg.blockCount, cfg.blocksPerCluster, 1, f, 2, 1 + f * 2, ROOT)
  {
    hide FatBlockCount, BootOk, IsPow2;
  }

  lemma Pow2Even(n: nat)
    requires IsPow2(n) && n > 1
    ensures n % 2 == 0
  {
  }

  /** What every mounted volume knows about its boot sector. */
  predicate BootOk(b: BootSector)
  {
    && b.blockSize >= BOOT_SIZE && b.blockSize % 2 == 0
    && b.blocksPerCluster >= 1
    && b.blockSize * b.blocksPerCluster >= FCB_SIZE
    && b.fatStartBlock == 1 && b.fatCopies == 2
    && b.fatBlockCount >= 1
    && b.dataStartBlock == 1 + 2 * b.fatBlockCount
    && b.dataStartBlock + b.blocksPerCluster <= b.blockCount
    && b.rootDirStartCluster == ROOT
    && (ROOT + (b.blockCount - b.dataStartBlock) / b.blocksPerCluster) * 2 <= b.blockSize * b.fatBlockCount
  }

  function ClusterSize(b: BootSector): nat { b.blockSize * b.blocksPerCluster }

  function DataClusterCount(b: BootSector): nat
    requires BootOk(b)
  {
    (b.blockCount - b.dataStartBlock) / b.blocksPerCluster
  }

  function MaxCluster(b: BootSector): nat
    requires BootOk(b)
  {
    ROOT + DataClusterCount(b) - 1
  }

  function FatLen(b: BootSector): nat { FatEntryCount(b.blockSize, b.fatBlockCount) }

  function FirstBlock(b: BootSector, c: nat): nat
    requires c >= ROOT
  {
    b.dataStartBlock + (c - ROOT) * b.blocksPerCluster
  }

  function FatStart(b: BootSector, copy: nat): nat { b.fatStartBlock + copy * b.fatBlockCount }

  /** There is at least the root cluster, ids never reach the end-of-chain marker, the FAT has an entry for each. */
  lemma ClusterIdBounds(b: BootSector)
    requires BootOk(b)
    ensures ROOT <= MaxCluster(b) < 0xFFFF
    ensures MaxCluster(b) < FatLen(b)
    ensures FatLen(b) * 2 == b.blockSize * b.fatBlockCount
  {
    var blocks := b.blockCount - b.dataStartBlock;
    QuotientAtMost(blocks, b.blocksPerCluster);
    DivMono(b.blocksPerCluster, blocks, b.blocksPerCluster);
    DivModUnique(b.blocksPerCluster, b.blocksPerCluster, 1, 0);
    assert b.blockSize == b.blockSize / 2 * 2;
    assert b.blockSize * b.fatBlockCount == (b.blockSize / 2 * b.fatBlockCount) * 2;
  }

  /** Every cluster lies inside the data region, whatever 16-bit step computes its address. */
  lemma ClusterInside(b: BootSector, c: nat)
    requires BootOk(b) && ROOT <= c <= MaxCluster(b)
    ensures b.dataStartBlock <= FirstBlock(b, c)
    ensures FirstBlock(b, c) + b.blocksPerCluster <= b.blockCount
  {
    var blocks := b.blockCount - b.dataStartBlock;
    QuotientAtMost(blocks, b.blocksPerCluster);
    MulMono(c - ROOT + 1, DataClusterCount(b), b.blocksPerCluster);
    assert (c - ROOT + 1) * b.blocksPerCluster == (c - ROOT) * b.blocksPerCluster + b.blocksPerCluster;
  }

  lemma ClustersApart(b: BootSector, c: nat, d: nat)
    requires BootOk(b) && ROOT <= c < d
    ensures FirstBlock(b, c) + b.blocksPerCluster <= FirstBlock(b, d)
  {
    MulOrder(c - ROOT, d - ROOT, b.blocksPerCluster);
  }

  /** Which region of the disk a block belongs to. */
  datatype Region = BootRegion | FatRegion(copy: nat) | DataRegion(cluster: nat)

  predicate InRegion(b: BootSector, r: Region, block: nat)
    requires BootOk(b)
  {
    match r
    case BootRegion => block == 0
    case FatRegion(copy) => copy < b.fatCopies && FatStart(b, copy) <= block < FatStart(b, copy) + b.fatBlockCount
    case DataRegion(c) =>
      ROOT <= c <= MaxCluster(b)
      && FirstBlock(b, c) <= block < FirstBlock(b, c) + b.blocksPerCluster
  }

  /** Boot block, both FATs and all clusters are pairwise disjoint and inside the disk. */
  lemma RegionsDisjoint(cfg: FsConfig, r: Region, r': Region, block: nat)
    requires Validate(cfg).Pass?
    requires InRegion(BootOf(cfg), r, block)
    ensures block < cfg.blockCount
    ensures InRegion(BootOf(cfg), r', block) ==> r == r'
  {
    hide Validate, FatBlockCount, BootOf, BootOk, FirstBlock, MaxCluster, FatStart;
    var b := BootOf(cfg);
    BootFields(cfg);
    RegionPlace(b, r, block);
    if InRegion(b, r', block) {
      RegionPlace(b, r', block);
      if r.DataRegion? && r'.DataRegion? {
        if r.cluster < r'.cluster { ClustersApart(b, r.cluster, r'.cluster); }
        if r'.cluster < r.cluster { ClustersApart(b, r'.cluster, r.cluster); }
      }
    }
  }

  /** Where the regions lie: the boot block, the two FATs, the clusters, in this order. */
  lemma RegionPlace(b: BootSector, r: Region, block: nat)
    requires BootOk(b) && InRegion(b, r, block)
    ensures match r
      case BootRegion => block == 0
      case FatRegion(copy) =>
        if copy == 0 then 1 <= block < 1 + b.fatBlockCount
          else copy == 1 && 1 + b.fatBlockCount <= block < b.dataStartBlock
      case DataRegion(c) => b.dataStartBlock <= block
    ensures block < b.blockCount && b.dataStartBlock > 0
  {
    if r.DataRegion? { ClusterInside(b, r.cluster); }
    hide MaxCluster, FirstBlock;
  }

  /** The clusters are as many as the data region has room for. */
  lemma ClustersFill(b: BootSector)
    requires BootOk(b)
    ensures var n := DataClusterCount(b);
      b.dataStartBlock + n * b.blocksPerCluster <= b.blockCount < b.dataStartBlock + (n + 1) * b.blocksPerCluster
  {
    var blocks, bpc := b.blockCount - b.dataStartBlock, b.blocksPerCluster;
    assert blocks == blocks / bpc * bpc + blocks % bpc;
    assert (blocks / bpc + 1) * bpc == blocks / bpc * bpc + bpc;
  }

  /**
   Every block of a volume belongs to the boot block, to one of two FATs or to a cluster, apart from fewer blocks
   at the end than make a cluster.
   */
  lemma BlocksCovered(cfg: FsConfig, block: nat)
    requires Validate(cfg).Pass? && block < cfg.blockCount
    ensures block == 0 ==> InRegion(BootOf(cfg), BootRegion, block)
    ensures 0 < block < BootOf(cfg).dataStartBlock ==>
      InRegion(BootOf(cfg), FatRegion(0), block) || InRegion(BootOf(cfg), FatRegion(1), block)
    ensures BootOf(cfg).dataStartBlock <= block && block + cfg.blocksPerCluster <= cfg.blockCount ==>
      exists c :: InRegion(BootOf(cfg), DataRegion(c), block)
  {
    hide Validate, FatBlockCount, BootOf;
    var b := BootOf(cfg);
    BootFields(cfg);
    if b.dataStartBlock <= block && block + b.blocksPerCluster <= b.blockCount {
      var c := ClusterOfBlock(b, block);
      assert InRegion(b, DataRegion(c), block);
    }
  }

  lemma ClusterOfBlock(b: BootSector, block: nat) returns (c: nat)
    requires BootOk(b) && b.dataStartBlock <= block && block + b.blocksPerCluster <= b.blockCount
    ensures ROOT <= c <= MaxCluster(b) && FirstBlock(b, c) <= block < FirstBlock(b, c) + b.blocksPerCluster
  {
    var q := RowOf(block - b.dataStartBlock, b.blockCount - b.dataStartBlock, b.blocksPerCluster);
    c := ROOT + q;
  }

  /** The row of a place, where each row has `b` places and another row would still begin. */
  lemma RowOf(a: nat, len: nat, b: nat) returns (q: nat)
    requires b > 0 && a + b <= len
    ensures q < len / b && q * b <= a < q * b + b
  {
    q := a / b;
    assert a == q * b + a % b && len == len / b * b + len % b;
    MulOrder(len / b, q + 1, b);
    assert (q + 1) * b == q * b + b;
  }

  /** A volume holds less than 2^32 bytes, so no file or directory size leaves 32 bits. */
  lemma VolumeBytes(b: BootSector)
    requires BootOk(b)
    ensures DataClusterCount(b) * ClusterSize(b) < U32_LIMIT
  {
    var n := DataClusterCount(b);
    QuotientAtMost(b.blockCount - b.dataStartBlock, b.blocksPerCluster);
    assert n * (b.blockSize * b.blocksPerCluster) == (n * b.blocksPerCluster) * b.blockSize;
    MulMono(n * b.blocksPerCluster, 0xFFFF, b.blockSize);
    MulMono(b.blockSize, 0xFFFF, 0xFFFF);
  }
}
