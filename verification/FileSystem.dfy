/** The mounted file system. */
module FileSystem {
  import opened Base
  import opened Geometry
  import opened Streams
  import opened FatChains
  import opened Directory
  import opened Volume
  import opened Persist
  import opened Device
  import opened Tree
  import opened Text
  import opened Names

  /** After the growing write the volume holds the written bytes and only the entry is missing. */
  lemma WriteToRecord(v0: Vol, v: Vol, view: View, loc: Loc, f: Fcb, f': Fcb, off: nat, data: seq<byte>)
      returns (bytes: seq<byte>)
    requires VolOk(v0) && v0.cs > 0 && v0.max < |v0.fat| && Represents(v0.cs, v0.store, view)
    requires Coherent(v0.cs, view, ROOT) && EntryAt(view, loc, f) && f.IsFile()
    requires ObjectAt(v0.store, f.start) == ObjectOf(view, f)
    requires WriteGrew(v0, f.start, f.size, f'.start, off, data, v)
    requires f'.IsFile() && f'.size == Max(f.size, off + |data|)
    ensures loc in Files(view) && CanRecord(v0.cs, v.store, view, f, f', bytes, WriteBytes(Files(view)[loc], off, data))
  {
    hide VolOk, Represents, Coherent, ObjectAt, ObjectOf, Missing, Whole, ZeroPad, ZeroFrom, WriteBytes, Splice, Files,
      PutBytes;
    NoObjectZero(v0);
    ObjectFacts(v0.cs, view, ROOT, loc, f);
    WrittenOk(v0.cs, view, ROOT, loc, f, off, data);
    WholeBounds(f'.size, v0.cs);
    var room := RoomFor(v0, f.start, f.size, off + |data|);
    bytes := if data == [] then room else Splice(room, off, data);
    NewObject(v0.cs, v0.store, view, f, f', bytes);
    UnusedBlob(v0.cs, v0.store, view, 0);
    if f'.start != 0 && f.start == 0 {
      UnusedName(v0.cs, v0.store, view, ROOT, f'.start);
      UnusedBlob(v0.cs, v0.store, view, f'.start);
    }
  }

  /** After a growing truncate has zeroed the gap the volume holds the padded file and only the entry is missing. */
  lemma GrowToRecord(v0: Vol, store: Store, view: View, loc: Loc, f: Fcb, f': Fcb, size: nat) returns (room: seq<byte>)
    requires VolOk(v0) && v0.cs > 0 && v0.max < |v0.fat| && Represents(v0.cs, v0.store, view)
    requires Coherent(v0.cs, view, ROOT) && EntryAt(view, loc, f) && f.IsFile() && size > f.size
    requires ObjectAt(v0.store, f.start) == ObjectOf(view, f)
    requires ChainMade(v0, f.start, f.size, f'.start, size)
    requires f'.IsFile() && f'.size == size
    ensures room == RoomFor(v0, f.start, f.size, size) && f.size < size <= |room|
    ensures ZeroRange(room, f.size, size - f.size) == room
    ensures f'.start != 0 && f'.start != loc.dir && loc in Files(view)
    ensures store == v0.store[f'.start := room] ==>
      CanRecord(v0.cs, store, view, f, f', room, TruncateBytes(Files(view)[loc], size))
  {
    hide VolOk, Represents, Coherent, ObjectAt, ObjectOf, Missing, Whole, ZeroPad, ZeroFrom, TruncateBytes, ZeroRange,
      Files, PutBytes;
    NoObjectZero(v0);
    ObjectFacts(v0.cs, view, ROOT, loc, f);
    GrownOk(v0.cs, view, ROOT, loc, f, size);
    WholeBounds(size, v0.cs);
    room := RoomFor(v0, f.start, f.size, size);
    NewObject(v0.cs, v0.store, view, f, f', room);
    UnusedBlob(v0.cs, v0.store, view, 0);
    if f.start == 0 {
      UnusedName(v0.cs, v0.store, view, ROOT, f'.start);
      UnusedBlob(v0.cs, v0.store, view, f'.start);
    }
  }

  /** After a shrinking truncate has cut the chain and cleared the rest, only the entry is missing. */
  lemma ShrinkToRecord(cs: nat, store0: Store, store: Store, view: View, loc: Loc, f: Fcb, f': Fcb, size: nat)
      returns (bytes: seq<byte>)
    requires cs > 0 && Represents(cs, store0, view) && 0 !in store0
    requires Coherent(cs, view, ROOT) && EntryAt(view, loc, f) && f.IsFile() && size < f.size
    requires f'.IsFile() && f'.size == size && f'.start == if size == 0 then 0 else f.start
    ensures f.start in store0 && f.start != 0 && loc in Files(view)
    ensures size > 0 ==> size <= Whole(size, cs) <= |store0[f.start]|
    ensures store == (if size == 0 then store0 - {f.start}
                      else store0[f.start := Splice(store0[f.start][..Whole(size, cs)], size,
                        Zeros(Whole(size, cs) - size))]) ==>
      CanRecord(cs, store, view, f, f', bytes, TruncateBytes(Files(view)[loc], size))
  {
    hide Slots, Coherent, Whole, Files, ZeroFrom;
    ObjectFacts(cs, view, ROOT, loc, f);
    hide Represents, PutBytes;
    var s := ObjectOf(view, f);
    StoreOf(cs, store0, view, f);
    hide ObjectOf;
    if size == 0 {
      bytes := [];
    } else {
      ShrunkOk(cs, view, ROOT, loc, f, size);
      bytes := Splice(s[..Whole(size, cs)], size, Zeros(Whole(size, cs) - size));
    }
    NewObject(cs, store0, view, f, f', bytes);
    UnusedBlob(cs, store0, view, 0);
  }

  /** The slots of a directory; start 0 has none. */
  function RowAt(v: View, d: nat): seq<DirSlot> { if d in v.dirs then v.dirs[d] else [] }

  class MyFileSystem {
    const boot: BootSector
    const device: LogicalBlockDevice
    /** In-memory FAT, and whether it differs from the disk. */
    var fat: Fat
    var fatDirty: bool
    var openFiles: seq<Option<OpenFile>>
    /** The chains of `fat`, and the byte string each of them holds. */
    ghost var layout: Layout
    ghost var store: Store
    /** The decoded directories and the other objects. */
    ghost var view: View

    /** Highest cluster id and cluster size in bytes, as the boot sector determines them. */
    const max: nat
    const cs: nat

    constructor Raw(boot: BootSector, device: LogicalBlockDevice, fat: Fat)
      requires BootOk(boot)
      ensures this.boot == boot && this.device == device && this.fat == fat && !fatDirty
      ensures openFiles == seq(MAX_OPEN_FILES, _ => None)
      ensures max == MaxCluster(boot) && cs == ClusterSize(boot)
    {
      this.boot := boot;
      this.device := device;
      this.fat := fat;
      fatDirty := false;
      openFiles := seq(MAX_OPEN_FILES, _ => None);
      max := MaxCluster(boot);
      cs := ClusterSize(boot);
    }

    // --- invariants -------------------------------------------------------------------------------

    /** The boot sector describes a volume that the device can hold. */
    ghost predicate Fits()
    {
      && BootOk(boot) && max == MaxCluster(boot) && cs == ClusterSize(boot)
      && ROOT <= max < 0xFFFF && max < FatLen(boot) && cs >= FCB_SIZE
      && device.blockSize == boot.blockSize && device.blockCount >= boot.blockCount
    }

    /** Geometry and buffer sizes fit together; the FAT may hold anything. */
    ghost predicate Sized()
      reads this`fat, device.inner
    {
      Fits() && device.Valid() && |fat| == FatLen(boot)
    }

    ghost function Disk(): (d: Disk)
      requires Sized()
      reads this`fat, device.inner
      ensures DiskOk(boot, d) && |d| == device.blockCount
    {
      device.Disk()
    }

    ghost function Cl(): (cl: Clusters)
      requires Sized()
      reads this`fat, device.inner
      ensures ClustersOk(cl, max, cs)
    {
      ClustersSized(boot, Disk());
      ClustersOf(boot, Disk())
    }

    ghost function Md(): Disk
      requires Sized()
      reads this`fat, device.inner
    {
      Meta(boot, Disk())
    }

    /** The volume as a value. */
    ghost function V(): Vol
      requires Sized()
      reads this`fat, this`fatDirty, this`layout, this`store, device.inner
    {
      Vol(boot, max, cs, Cl(), Md(), fat, fatDirty, layout, store)
    }

    ghost predicate Sound()
      reads this`fat, this`fatDirty, this`layout, this`store, device.inner
    {
      Sized() && VolOk(V())
    }

    /** Sound, and `view` is what the directories and files on the volume say. */
    ghost predicate Ready()
      reads this`fat, this`fatDirty, this`layout, this`store, this`view, device.inner
    {
      Sound() && Represents(cs, store, view)
    }

    /**
     What every public operation keeps unless a device write fails: the FAT is a set of disjoint chains, the
     directories form a tree of files in order, and every handle agrees with the disk.
     */
    ghost predicate Intact()
      reads this, device.inner
    {
      Ready() && Coherent(cs, view, ROOT) && HandlesOk(view, openFiles) && Mountable(boot)
    }

    /** Intact, on a device whose writes do not fail any more. */
    ghost predicate Valid()
      reads this, device.inner
    {
      Intact() && device.inner.faults == 0
    }

    /** No device write has failed since. */
    twostate predicate Steady()
      reads device.inner
    {
      device.inner.faults == old(device.inner.faults)
    }

    /** Some device write has failed since. */
    twostate predicate Faulted()
      reads device.inner
    {
      device.inner.faults < old(device.inner.faults)
    }

    /** One device write has failed since, and no more than one. */
    twostate predicate FaultedOnce()
      reads device.inner
    {
      device.inner.faults + 1 == old(device.inner.faults)
    }

    /** More than one device write has failed since. */
    twostate predicate FaultedAgain()
      reads device.inner
    {
      device.inner.faults + 1 < old(device.inner.faults)
    }

    /** Number of free clusters. */
    ghost function FreeCount(): nat
      requires Sized()
      reads this`fat, device.inner
    {
      |FreeSet(fat, max)|
    }

    // --- blocks and clusters ------------------------------------------------------------------------

    method ReadDeviceBlock(block: nat) returns (r: Result<seq<byte>>)
      requires Sized()
      ensures block < device.blockCount ==> r == Success(Disk()[block])
    {
      var dst := new byte[boot.blockSize];
      var step := device.ReadBlockInto(block, dst);
      if step.Fail? {
        return Failure(step.error);
      }
      return Success(dst[..]);
    }

    method WriteDeviceBlock(block: nat, data: seq<byte>) returns (r: Outcome)
      requires Sized() && |data| == boot.blockSize && block < device.blockCount
      modifies device.inner
      ensures Sized()
      ensures r.Pass? ==> Disk() == old(Disk())[block := data] && device.inner.faults == old(device.inner.faults)
      ensures r.Fail? ==> r.error == DeviceFault && device.inner.faults + 1 == old(device.inner.faults)
      ensures r.Fail? ==> Torn(old(Disk())[block], data, Disk()[block])
      ensures forall i :: 0 <= i < |Disk()| && i != block ==> Disk()[i] == old(Disk())[i]
    {
      r := device.WriteBlockFrom(block, data);
    }

    method ZeroDeviceBlock(block: nat) returns (r: Outcome)
      requires Sized() && block < device.blockCount
      modifies device.inner
      ensures Sized()
      ensures r.Pass? ==>
        Disk() == old(Disk())[block := Zeros(boot.blockSize)] && device.inner.faults == old(device.inner.faults)
      ensures r.Fail? ==> r.error == DeviceFault && device.inner.faults + 1 == old(device.inner.faults)
      ensures forall i :: 0 <= i < |Disk()| && i != block ==> Disk()[i] == old(Disk())[i]
    {
      r := WriteDeviceBlock(block, Zeros(boot.blockSize));
    }

    lemma ClusterPlace(c: nat)
      requires Sized() && ROOT <= c <= max
      ensures BootOk(boot) && c <= MaxCluster(boot) && cs == boot.blocksPerCluster * boot.blockSize
      ensures FirstBlock(boot, c) + boot.blocksPerCluster <= device.blockCount
    {
      ClusterInside(boot, c);
    }

    method ReadClusterBytes(cluster: nat) returns (r: Result<seq<byte>>)
      requires Sized() && cluster >= ROOT
      ensures cluster <= max ==> r == Success(Cl()[cluster])
      ensures cluster > max ==> r == Failure(CorruptFs(OutsideRegion(cluster)))
    {
      hide ClustersOf, BootOk, LogicalView, FirstBlock, Stream, ClusterSize, MaxCluster, Meta, Fits, Disk, Run;
      if cluster > max {
        return Failure(CorruptFs(OutsideRegion(cluster)));
      }
      ClusterPlace(cluster);
      ClusterAt(boot, Disk(), cluster);
      var first := FirstBlock(boot, cluster);
      ghost var d, run := Disk(), Run(first, boot.blocksPerCluster);
      var out := [];
      RunAt(first, boot.blocksPerCluster);
      assert Stream(d, []) == [] by { StreamLen(d, [], 0); }
      for i := 0 to boot.blocksPerCluster
        invariant out == Stream(d, run[..i])
      {
        var block := ReadDeviceBlock(first + i);
        if block.Failure? {
          return block;
        }
        assert run[..i + 1] == run[..i] + [first + i];
        StreamSnoc(d, run[..i], first + i);
        out := out + block.value;
      }
      assert run[..boot.blocksPerCluster] == run;
      return Success(out);
    }

    /** The block loop shared by cluster writes and FAT flushes: `n` blocks of data from block `first` on. */
    method WriteBlocks(first: nat, n: nat, data: seq<byte>) returns (r: Outcome)
      requires Sized() && first + n <= device.blockCount && |data| == n * boot.blockSize
      modifies device.inner
      ensures Sized()
      ensures forall p :: 0 <= p < |Disk()| && !(first <= p < first + n) ==> Disk()[p] == old(Disk())[p]
      ensures r.Pass? ==> device.inner.faults == old(device.inner.faults)
      ensures r.Pass? ==> forall p :: first <= p < first + n ==> Disk()[p] == Chunk(data, p - first, boot.blockSize)
      ensures r.Fail? ==> r.error == DeviceFault && device.inner.faults + 1 == old(device.inner.faults)
      ensures r.Fail? ==> forall p :: first <= p < first + n ==>
        Torn(old(Disk())[p], Chunk(data, p - first, boot.blockSize), Disk()[p])
    {
      hide Chunk, BootOk, Fits, LogicalView, Torn;
      for i := 0 to n
        invariant Sized() && device.inner.faults == old(device.inner.faults)
        invariant forall p :: first + i <= p < first + n ==> Disk()[p] == old(Disk())[p]
        invariant forall p :: 0 <= p < |Disk()| && !(first <= p < first + n) ==> Disk()[p] == old(Disk())[p]
        invariant forall p :: first <= p < first + i ==> Disk()[p] == Chunk(data, p - first, boot.blockSize)
      {
        ChunkLen(data, i, n, boot.blockSize);
        r := WriteDeviceBlock(first + i, Chunk(data, i, boot.blockSize));
        if r.Fail? {
          forall p | first <= p < first + n
            ensures Torn(old(Disk())[p], Chunk(data, p - first, boot.blockSize), Disk()[p])
          {
            ChunkLen(data, p - first, n, boot.blockSize);
            TornEnds(old(Disk())[p], Chunk(data, p - first, boot.blockSize));
          }
          return;
        }
      }
      return Pass;
    }

    /** Overwrites one cluster; when the device fails, only that cluster may have changed. */
    method WriteClusterBytes(cluster: nat, data: seq<byte>) returns (r: Outcome)
      requires Sized() && cluster >= ROOT
      modifies device.inner
      ensures Sized()
      ensures Md() == old(Md())
      ensures |data| != cs ==> r == Fail(CorruptFs(WriteSize))
      ensures |data| == cs && cluster > max ==> r == Fail(CorruptFs(OutsideRegion(cluster)))
      ensures |data| == cs && cluster <= max && r.Fail? ==>
        r.error == DeviceFault && device.inner.faults + 1 == old(device.inner.faults)
      ensures r.Pass? ==> Cl() == old(Cl())[cluster := data] && device.inner.faults == old(device.inner.faults)
      ensures |data| == cs && cluster <= max && r.Fail? ==> Torn(At(old(Cl()), cluster), data, At(Cl(), cluster))
      ensures forall c :: c != cluster ==> At(Cl(), c) == At(old(Cl()), c)
    {
      hide ClustersOf, ClusterBytes, BootOk, LogicalView, Stream, FirstBlock, Chunk, Meta, MaxCluster, ClusterSize,
        At, Torn;
      if |data| != cs {
        return Fail(CorruptFs(WriteSize));
      }
      if cluster > max {
        return Fail(CorruptFs(OutsideRegion(cluster)));
      }
      ClusterPlace(cluster);
      var first := FirstBlock(boot, cluster);
      ghost var d0 := Disk();
      r := WriteBlocks(first, boot.blocksPerCluster, data);
      ClusterFrame(boot, d0, Disk(), cluster);
      if r.Pass? {
        ClusterWritten(boot, Disk(), cluster, data);
      } else {
        ClusterTorn(boot, d0, Disk(), cluster, data);
      }
    }

    method ZeroCluster(cluster: nat) returns (r: Outcome)
      requires Sized() && cluster >= ROOT
      modifies device.inner
      ensures Sized()
      ensures Md() == old(Md())
      ensures cluster > max ==> r == Fail(CorruptFs(OutsideRegion(cluster)))
      ensures cluster <= max && r.Fail? ==>
        r.error == DeviceFault && device.inner.faults + 1 == old(device.inner.faults)
      ensures r.Pass? ==> Cl() == old(Cl())[cluster := Zeros(cs)] && device.inner.faults == old(device.inner.faults)
      ensures forall c :: c != cluster ==> At(Cl(), c) == At(old(Cl()), c)
    {
      if cluster > max {
        return Fail(CorruptFs(OutsideRegion(cluster)));
      }
      ClusterInside(boot, cluster);
      var first := FirstBlock(boot, cluster);
      var size := boot.blockSize;
      assert cs == boot.blocksPerCluster * size;
      hide ClustersOf, BootOk, LogicalView, Stream, FirstBlock, Chunk, Meta, MaxCluster, ClusterSize;
      ghost var d0 := Disk();
      var i := 0;
      while i < boot.blocksPerCluster
        invariant 0 <= i <= boot.blocksPerCluster
        invariant Sized() && device.inner.faults == old(device.inner.faults)
        invariant |Disk()| == |d0|
        invariant forall j :: 0 <= j < |d0| && !(first <= j < first + boot.blocksPerCluster) ==> Disk()[j] == d0[j]
        invariant forall p :: first <= p < first + i ==> Disk()[p] == Zeros(size)
      {
        r := ZeroDeviceBlock(first + i);
        if r.Fail? {
          ClusterFrame(boot, d0, Disk(), cluster);
          return;
        }
        i := i + 1;
      }
      ClusterFrame(boot, d0, Disk(), cluster);
      ZeroRun(Disk(), first, boot.blocksPerCluster, size);
      return Pass;
    }

    // --- FAT cache ----------------------------------------------------------------------------------

    method ReadFat(cluster: nat) returns (r: Result<FatEntry>)
      requires Sized()
      ensures r == if cluster > max then Failure(CorruptFs(OutsideRegion(cluster))) else Success(fat[cluster])
    {
      if cluster > max {
        return Failure(CorruptFs(OutsideRegion(cluster)));
      }
      if |fat| != FatLen(boot) {
        return Failure(CorruptFs(FatCacheSize));
      }
      return Success(fat[cluster]);
    }

    method WriteFat(cluster: nat, value: FatEntry) returns (r: Outcome)
      requires Sized()
      modifies `fat, `fatDirty
      ensures Sized() && Disk() == old(Disk()) && Cl() == old(Cl()) && Md() == old(Md())
      ensures cluster > max ==>
        r == Fail(CorruptFs(OutsideRegion(cluster))) && fat == old(fat) && fatDirty == old(fatDirty)
      ensures cluster <= max ==> r == Pass && fat == old(fat)[cluster := value] && fatDirty
    {
      if cluster > max {
        return Fail(CorruptFs(OutsideRegion(cluster)));
      }
      fat := fat[cluster := value];
      fatDirty := true;
      return Pass;
    }

    /** First fit: the `n` lowest free clusters, zeroed and marked end-of-chain, or nothing at all. */
    method AllocateClusters(n: nat) returns (r: Result<seq<nat>>)
      requires Sound()
      modifies `fat, `fatDirty, `layout, `store, device.inner
      ensures Sound()
      ensures |FreeSet(old(fat), max)| < n ==>
        r == Failure(NoSpace) && fatDirty == old(fatDirty) && Disk() == old(Disk())
          && device.inner.faults == old(device.inner.faults)
      ensures |FreeSet(old(fat), max)| >= n && r.Failure? ==>
        r.error == DeviceFault && device.inner.faults + 1 == old(device.inner.faults)
      ensures r.Failure? ==> fat == old(fat) && layout == old(layout) && store == old(store)
      ensures r.Success? ==>
        && r.value == LowestFree(old(fat), ROOT, max, n) && |r.value| == n
        && device.inner.faults == old(device.inner.faults)
        && fat == MarkAll(old(fat), r.value)
        && layout == AllocAll(old(layout), r.value)
        && store == ZeroAll(old(store), r.value, cs)
    {
      hide VolOk, FreeSet, Meta, ClustersOf, LogicalView, MarkAll, AllocAll, ZeroAll, LowestFree;
      var out := CollectFree(n);
      if |out| != n {
        return Failure(NoSpace);
      }
      ghost var v := V();
      LowestFreeMeaning(fat, ROOT, max, n);
      NoneTaken(v);
      assert out[..0] == [];
      for index := 0 to n
        invariant Sound() && device.inner.faults == old(device.inner.faults)
        invariant fat == MarkAll(v.fat, out[..index])
        invariant layout == AllocAll(v.l, out[..index])
        invariant store == ZeroAll(v.store, out[..index], cs)
        invariant Md() == v.md && forall c :: c !in out ==> At(Cl(), c) == At(v.cl, c)
      {
        hide Sound;
        MarkAllEntries(v.fat, out[..index]);
        OneMoreTaken(v, out, index);
        var step := TakeCluster(out[index]);
        if step.Fail? {
          UndoAllocation(out[..index + 1], v);
          return Failure(step.error);
        }
      }
      assert out[..n] == out;
      return Success(out);
    }

    /** One round of allocation: mark the cluster, then zero it. */
    method TakeCluster(cluster: nat) returns (r: Outcome)
      requires Sound() && ROOT <= cluster <= max && fat[cluster] == Free
      modifies `fat, `fatDirty, `layout, `store, device.inner
      ensures Sized() && Md() == old(Md()) && fatDirty
      ensures fat == old(fat)[cluster := EndOfChain]
      ensures r.Pass? ==>
        && Sound() && device.inner.faults == old(device.inner.faults)
        && layout == AllocLayout(old(layout), cluster) && store == old(store)[cluster := Zeros(cs)]
      ensures r.Fail? ==> r.error == DeviceFault && device.inner.faults + 1 == old(device.inner.faults)
      ensures forall c :: c != cluster ==> At(Cl(), c) == At(old(Cl()), c)
    {
      hide VolOk, Meta, ClustersOf, LogicalView;
      VolTake(V(), cluster);
      r := WriteFat(cluster, EndOfChain);
      r := ZeroCluster(cluster);
      if r.Pass? {
        layout := AllocLayout(layout, cluster);
        store := store[cluster := Zeros(cs)];
      }
    }

    method CollectFree(n: nat) returns (out: seq<nat>)
      requires Sized()
      ensures out == LowestFree(fat, ROOT, max, n)
      ensures |out| == n <==> |FreeSet(fat, max)| >= n
    {
      hide FreeSet;
      out := [];
      var c := ROOT;
      while c <= max && |out| < n
        invariant ROOT <= c <= max + 1 && |out| <= n
        invariant LowestFree(fat, ROOT, max, n) == out + LowestFree(fat, c, max, n - |out|)
      {
        var entry := ReadFat(c);
        if entry == Success(Free) {
          out := out + [c];
        }
        c := c + 1;
      }
      LowestFreeCount(fat, max, n);
    }

    /** Takes allocated clusters back; the device is not touched. */
    method UndoAllocation(out: seq<nat>, ghost v: Vol)
      requires Sized() && fatDirty && VolOk(v)
      requires v == V().(cl := v.cl, fat := v.fat, dirty := v.dirty, l := v.l, store := v.store)
      requires fat == MarkAll(v.fat, out)
      requires forall i :: 0 <= i < |out| ==> ROOT <= out[i] <= max && v.fat[out[i]] == Free
      requires forall c :: ROOT <= c <= max && v.fat[c] != Free ==> At(Cl(), c) == At(v.cl, c)
      modifies `fat, `fatDirty, `layout, `store
      ensures Sound()
      ensures fat == v.fat && layout == v.l && store == v.store
    {
      hide VolOk, Meta, ClustersOf, LogicalView;
      MarkAllEntries(v.fat, out);
      hide MarkAll;
      for i := 0 to |out|
        invariant Sized() && Disk() == old(Disk()) && fatDirty
        invariant |fat| == |v.fat|
        invariant forall c :: 0 <= c < |fat| && (c in out ==> c in out[..i]) ==> fat[c] == v.fat[c]
      {
        hide Sized;
        var step := WriteFat(out[i], Free);
      }
      assert fat == v.fat;
      layout, store := v.l, v.store;
      VolUnused(v, Cl());
    }

    // --- chains ----------------------------------------------------------------------------------------

    method CollectChain(start: nat) returns (r: Result<seq<Result<nat>>>)
      requires Sized()
      ensures r.Success? ==> r.value == WalkFrom(fat, max, start)
      ensures r.Failure? ==> WalkFrom(fat, max, start) == [Failure(r.error)]
    {
      hide Walk;
      var it :- NewChainIter(this, start);
      ghost var w := WalkFrom(fat, max, start);
      var items := [];
      while true
        invariant it.fs == this && fresh(it)
        invariant w == items + it.Rest()
        decreases |it.Rest()|
      {
        var item := it.Next();
        if item.None? {
          return Success(items);
        }
        items := items + [item.value];
      }
    }

    /** Frees and zeroes the listed clusters, last one first; an error at the end of the list stops it at once. */
    method FreeItems(items: seq<Result<nat>>) returns (r: Outcome)
      requires Sized()
      requires AllOk(items) || (items != [] && items[|items| - 1].Failure?)
      requires AllOk(items) ==> forall i :: 0 <= i < |items| ==> ROOT <= items[i].value <= max
      modifies `fat, `fatDirty, device.inner
      ensures Sized() && Md() == old(Md())
      ensures !AllOk(items) ==> r.Fail?
      ensures !AllOk(items) || items == [] ==>
        && fat == old(fat) && fatDirty == old(fatDirty) && Disk() == old(Disk())
        && device.inner.faults == old(device.inner.faults)
      ensures items == [] ==> r.Pass?
      ensures AllOk(items) && r.Fail? ==> r.error == DeviceFault && device.inner.faults + 1 == old(device.inner.faults)
      ensures r.Pass? ==> device.inner.faults == old(device.inner.faults) && (items != [] ==> fatDirty)
      ensures AllOk(items) && r.Pass? ==> fat == FreeAll(old(fat), Members(items))
      ensures AllOk(items) && r.Fail? ==> FreeTorn(old(fat), old(Cl()), fat, Cl(), Members(items))
      ensures AllOk(items) ==> forall c :: c !in Members(items) ==> At(Cl(), c) == At(old(Cl()), c)
    {
      hide Fits, Meta, ClustersOf, LogicalView, At;
      ghost var ch := if AllOk(items) then Members(items) else [];
      var i := |items|;
      while i > 0
        invariant 0 <= i <= |items|
        invariant i < |items| ==> AllOk(items) && fatDirty
        invariant Sized() && Md() == old(Md()) && device.inner.faults == old(device.inner.faults)
        invariant i == |items| ==> fat == old(fat) && fatDirty == old(fatDirty) && Disk() == old(Disk())
        invariant |fat| == |old(fat)|
        invariant AllOk(items) ==> forall c :: 0 <= c < |fat| ==> fat[c] == if c in ch[i..] then Free else old(fat)[c]
        invariant AllOk(items) ==> forall c :: c !in ch[i..] ==> At(Cl(), c) == At(old(Cl()), c)
      {
        i := i - 1;
        if items[i].Failure? {
          return Fail(items[i].error);
        }
        assert AllOk(items);
        assert ch[i..] == [ch[i]] + ch[i + 1..];
        r := WriteFat(items[i].value, Free);
        r := ZeroCluster(items[i].value);
        if r.Fail? {
          assert fat == FreeAll(old(fat), ch[i..]);
          assert FreedFrom(old(fat), old(Cl()), fat, Cl(), ch, i);
          return;
        }
      }
      assert ch[0..] == ch;
      assert AllOk(items) ==> fat == FreeAll(old(fat), ch);
      return Pass;
    }

    /** On a malformed chain nothing changes; on a well-formed one exactly its clusters become free. */
    method FreeChainFrom(start: nat) returns (r: Outcome)
      requires Sized()
      requires var w := WalkFrom(fat, max, start);
        AllOk(w) ==> forall i :: 0 <= i < |w| ==> w[i].value >= ROOT
      modifies `fat, `fatDirty, device.inner
      ensures Sized() && Md() == old(Md())
      ensures !AllOk(WalkFrom(old(fat), max, start)) ==> r.Fail?
      ensures !AllOk(WalkFrom(old(fat), max, start)) || start == 0 ==>
        && fat == old(fat) && fatDirty == old(fatDirty) && Disk() == old(Disk())
        && device.inner.faults == old(device.inner.faults)
      ensures start == 0 ==> r.Pass?
      ensures AllOk(WalkFrom(old(fat), max, start)) && r.Fail? ==>
        r.error == DeviceFault && device.inner.faults + 1 == old(device.inner.faults)
      ensures r.Pass? ==> device.inner.faults == old(device.inner.faults) && (start != 0 ==> fatDirty)
      ensures AllOk(WalkFrom(old(fat), max, start)) ==>
        var ch := Members(WalkFrom(old(fat), max, start));
        && (r.Pass? ==> fat == FreeAll(old(fat), ch))
        && (r.Fail? ==> FreeTorn(old(fat), old(Cl()), fat, Cl(), ch))
        && forall c :: c !in ch ==> At(Cl(), c) == At(old(Cl()), c)
    {
      hide Meta, ClustersOf, LogicalView, WalkFrom, FreeAll, At, Members, FreeTorn;
      WalkEnds(fat, max, start);
      var items := CollectChain(start);
      if items.Failure? {
        return Fail(items.error);
      }
      r := FreeItems(items.value);
    }

    /** Freeing a chain of a sound volume removes its object. */
    method DropChain(start: nat) returns (r: Outcome)
      requires Sound() && start in layout.chains
      modifies `fat, `fatDirty, `layout, `store, device.inner
      ensures Sized()
      ensures r.Fail? ==> r.error == DeviceFault && device.inner.faults + 1 == old(device.inner.faults)
      ensures r.Fail? ==> FreeTorn(old(fat), old(Cl()), fat, Cl(), old(layout.chains[start]))
      ensures r.Pass? ==>
        && Sound() && device.inner.faults == old(device.inner.faults)
        && fat == FreeAll(old(fat), old(layout.chains[start]))
        && layout == DropLayout(old(layout), start) && store == old(store) - {start}
    {
      hide VolOk, Meta, ClustersOf, LogicalView, WalkFrom, FreeAll, DropLayout, At, FreeTorn;
      ghost var v := V();
      VolChain(v, start);
      MembersOks(layout.chains[start]);
      r := FreeChainFrom(start);
      assert forall c :: c !in v.l.chains[start] ==> At(Cl(), c) == At(v.cl, c);
      if r.Pass? {
        VolDrop(v, start, Cl());
        layout := DropLayout(layout, start);
        store := store - {start};
      }
    }

    /** Frees the chain of an entry, if it has one: exactly its clusters become free. */
    method FreeObject(start: nat) returns (r: Outcome)
      requires Sound() && (start == 0 || start in layout.chains)
      modifies `fat, `fatDirty, `layout, `store, device.inner
      ensures Sized()
      ensures r.Fail? ==> r.error == DeviceFault && Faulted()
      ensures r.Fail? ==> FreeTorn(old(fat), old(Cl()), fat, Cl(), ChainAt(old(layout), start))
      ensures r.Pass? ==>
        && Sound() && Steady()
        && fat == FreeAll(old(fat), ChainAt(old(layout), start)) && store == old(store) - {start}
        && FreeCount() == old(FreeCount()) + |ChainAt(old(layout), start)|
    {
      hide VolOk, Meta, ClustersOf, LogicalView, FreeSet;
      ghost var v := V();
      NoObjectZero(v);
      if start == 0 {
        assert WalkFrom(fat, max, 0) == [];
        r := FreeChainFrom(start);
        assert FreeAll(fat, ChainAt(layout, 0)) == fat && store - {0} == store;
      } else {
        r := DropChain(start);
        if r.Pass? { TrimCount(v, start, 0, V()); }
      }
    }

    /** Cuts a chain after `keep` clusters and frees the rest. */
    method TrimChainLen(start: nat, keep: nat) returns (r: Outcome)
      requires Sound() && (start == 0 || start in layout.chains)
      modifies `fat, `fatDirty, `layout, `store, device.inner
      ensures Sized()
      ensures start == 0 ==> r == Pass && Sound() && fat == old(fat) && layout == old(layout) && store == old(store)
      ensures r.Fail? ==> r.error == DeviceFault && device.inner.faults + 1 == old(device.inner.faults)
      ensures r.Fail? ==>
        start in old(layout).chains
        && TrimTorn(old(fat), old(Cl()), fat, Cl(), old(layout).chains[start], keep)
      ensures r.Pass? ==> Sound() && device.inner.faults == old(device.inner.faults)
      ensures start != 0 && r.Pass? ==>
        && fat == TrimmedFat(old(fat), old(layout.chains[start]), keep)
        && layout.chains == TrimmedChains(old(layout.chains), start, keep)
        && start in old(store) && store == TrimmedStore(old(store), start, keep, cs)
    {
      if start == 0 {
        return Pass;
      }
      hide VolOk, Meta, ClustersOf, LogicalView, WalkFrom, TrimmedFat, FreeAll, Cl, Md, Disk, FreeTorn;
      if keep == 0 {
        VolChain(V(), start);
        TrimAll(fat, layout.chains[start]);
        assert layout.chains[start][0..] == layout.chains[start];
        r := DropChain(start);
        return;
      }
      var ends := LastKept(start, keep);
      r := CutAfter(start, keep, ends.value.0, ends.value.1);
    }

    /** The last cluster to keep, and the first one behind it if there is one. */
    method LastKept(start: nat, keep: nat) returns (r: Result<(nat, Option<nat>)>)
      requires Sound() && start in layout.chains && keep > 0
      ensures var ch := layout.chains[start];
        && ch != []
        && r == Success((ch[Min(keep, |ch|) - 1], if keep < |ch| then Some(ch[keep]) else None))
    {
      hide VolOk, Meta, ClustersOf, LogicalView, Walk, WalkFrom, Oks, Cl, Md, Disk;
      ghost var ch := layout.chains[start];
      VolChain(V(), start);
      OksTail(ch, 0);
      var newIt := NewChainIter(this, start);
      var it := newIt.value;
      var last: Option<nat> := None;
      var i := 0;
      assert ch[0..] == ch;
      while i < keep
        invariant 0 <= i <= keep && i <= |ch|
        invariant it.fs == this && fresh(it) && it.Rest() == Oks(ch[i..])
        invariant i > 0 ==> last == Some(ch[i - 1])
      {
        OksTail(ch, i);
        var item := it.Next();
        if item.None? {
          break;
        }
        last := Some(item.value.Extract());
        i := i + 1;
      }
      if last.None? {
        return Failure(CorruptFs(ChainTooShort));
      }
      OksTail(ch, i);
      var tail := it.Next();
      return Success((last.value, if tail.None? then None else Some(tail.value.Extract())));
    }

    method CutAfter(start: nat, keep: nat, last: nat, tail: Option<nat>) returns (r: Outcome)
      requires Sound() && start in layout.chains && keep > 0
      requires var ch := layout.chains[start];
        ch != [] && last == ch[Min(keep, |ch|) - 1] && tail == if keep < |ch| then Some(ch[keep]) else None
      modifies `fat, `fatDirty, `layout, `store, device.inner
      ensures Sized()
      ensures r.Fail? ==> r.error == DeviceFault && device.inner.faults + 1 == old(device.inner.faults)
      ensures r.Fail? ==>
        start in old(layout).chains
        && TrimTorn(old(fat), old(Cl()), fat, Cl(), old(layout).chains[start], keep)
      ensures r.Pass? ==>
        && Sound() && device.inner.faults == old(device.inner.faults)
        && fat == TrimmedFat(old(fat), old(layout.chains[start]), keep)
        && layout.chains == TrimmedChains(old(layout.chains), start, keep)
        && start in old(store) && store == TrimmedStore(old(store), start, keep, cs)
    {
      hide VolOk, Meta, ClustersOf, LogicalView, Walk;
      ghost var v, ch := V(), layout.chains[start];
      VolChain(v, start);
      if keep < |ch| {
        VolCut(v, start, keep);
        CutAndDrop(v, start, keep);
      } else {
        MulMono(|ch|, keep, cs);
        assert fat[last := EndOfChain] == fat;
        VolDirty(v);
      }
      hide TrimmedFat, FreeAll, SplitLayout, DropLayout;
      r := WriteFat(last, EndOfChain);
      if tail.Some? {
        layout := SplitLayout(layout, start, keep);
        store := store[start := store[start][..keep * cs]][ch[keep] := store[start][keep * cs..]];
        assert V() == Cut(v, start, keep);
        r := DropChain(tail.value);
      }
    }

    /** Length and last cluster of a chain. */
    method ChainEnd(start: nat) returns (r: Result<(nat, Option<nat>)>)
      requires Sound() && (start == 0 || start in layout.chains)
      ensures var ch := ChainAt(layout, start);
        r == Success((|ch|, if ch == [] then None else Some(Last(ch))))
      ensures ChainAt(layout, start) == [] <==> start == 0
    {
      hide VolOk, Meta, ClustersOf, LogicalView, WalkFrom, Walk, ChainAt, Oks, Cl, Md, Disk, V;
      ghost var ch := ChainOfStart(start);
      OksTail(ch, 0);
      var newIt := NewChainIter(this, start);
      var it := newIt.value;
      var count, last: Option<nat> := 0, None;
      assert ch[0..] == ch;
      while true
        invariant it.fs == this && fresh(it)
        invariant count <= |ch| && it.Rest() == Oks(ch[count..])
        invariant last == if count == 0 then None else Some(ch[count - 1])
        decreases |ch| - count
      {
        OksTail(ch, count);
        var item := it.Next();
        if item.None? {
          return Success((count, last));
        }
        last := Some(item.value.Extract());
        count := count + 1;
      }
    }

    lemma ChainOfStart(start: nat) returns (ch: seq<nat>)
      requires Sound() && (start == 0 || start in layout.chains)
      ensures ch == ChainAt(layout, start) && WalkFrom(fat, max, start) == Oks(ch) && start <= max
      ensures ch == [] <==> start == 0
    {
      ch := ChainAt(layout, start);
      if start in layout.chains {
        VolChain(V(), start);
      }
      hide VolOk, Oks;
      assert start == 0 ==> Oks(ch) == [];
    }

    /** Makes the chain of a file at least `needed` clusters long, with zeroed clusters; all or nothing. */
    method EnsureFcbChainCapacity(fcb: Fcb, needed: nat) returns (r: Result<Fcb>)
      requires Sound() && (fcb.start == 0 || fcb.start in layout.chains)
      modifies `fat, `fatDirty, `layout, `store, device.inner
      ensures Sound()
      ensures r.Failure? ==> fat == old(fat) && layout == old(layout) && store == old(store)
      ensures r.Success? ==> device.inner.faults == old(device.inner.faults)
      ensures needed <= |ChainAt(old(layout), fcb.start)| ==>
        && r == Success(fcb) && fat == old(fat) && fatDirty == old(fatDirty) && Disk() == old(Disk())
        && layout == old(layout) && store == old(store)
      ensures needed > |ChainAt(old(layout), fcb.start)| && r.Failure? ==>
        if |FreeSet(old(fat), max)| < needed - |ChainAt(old(layout), fcb.start)|
        then r.error == NoSpace && fatDirty == old(fatDirty) && Disk() == old(Disk())
             && device.inner.faults == old(device.inner.faults)
        else r.error == DeviceFault && device.inner.faults + 1 == old(device.inner.faults)
      ensures needed > |ChainAt(old(layout), fcb.start)| && r.Success? ==>
        var extra := LowestFree(old(fat), ROOT, max, needed - |ChainAt(old(layout), fcb.start)|);
        && |extra| == needed - |ChainAt(old(layout), fcb.start)|
        && r.value == fcb.(start := r.value.start)
        && Extended(old(V()), fcb.start, r.value.start, extra, V())
    {
      hide VolOk, Meta, ClustersOf, LogicalView, WalkFrom, Walk, FreeSet, Cl, Md, Disk, ChainAt;
      ghost var v0 := V();
      var end := ChainEnd(fcb.start);
      var current, last := end.value.0, end.value.1;
      if needed <= current {
        return Success(fcb);
      }
      var extra :- AllocateClusters(needed - current);
      var start := AppendClusters(fcb.start, last, extra, v0);
      return Success(fcb.(start := start));
    }

    /** Hangs freshly allocated clusters behind a chain, or makes them a chain. */
    method AppendClusters(start: u16, last: Option<nat>, extra: seq<nat>, ghost v0: Vol) returns (obj: u16)
      requires Sound() && VolOk(v0) && v0.max == max && v0.cs == cs
      requires extra != [] && extra == LowestFree(v0.fat, ROOT, max, |extra|)
      requires fat == MarkAll(v0.fat, extra) && layout == AllocAll(v0.l, extra) && store == ZeroAll(v0.store, extra, cs)
      requires start == 0 || start in v0.l.chains
      requires last == if ChainAt(v0.l, start) == [] then None else Some(Last(ChainAt(v0.l, start)))
      requires ChainAt(v0.l, start) == [] <==> start == 0
      modifies `fat, `fatDirty, `layout, `store
      ensures Sound() && Extended(v0, start, obj, extra, V())
    {
      hide VolOk, Meta, ClustersOf, LogicalView, Cl, Md, Disk, MarkAll, AllocAll, ZeroAll;
      AllocatedAreFresh(v0, extra);
      NoObjectZero(v0);
      assert ROOT <= extra[0] <= max;
      hide Fresh, Growing;
      if start == 0 {
        obj := extra[0];
        GrowNew(v0, V(), extra);
        LinkClusters(extra, obj, v0, [], []);
      } else {
        obj := start;
        GrowOld(v0, V(), extra, obj);
        LinkFirst(last.value, extra, obj, v0);
        LinkClusters(extra, obj, v0, v0.l.chains[obj], v0.store[obj]);
      }
    }

    method LinkFirst(last: nat, extra: seq<nat>, ghost obj: nat, ghost v0: Vol)
      requires Sound() && extra != [] && obj in v0.l.chains && obj in v0.store
      requires v0.l.chains[obj] != [] && last == Last(v0.l.chains[obj])
      requires Growing(v0, v0.l.chains[obj], v0.store[obj], obj, extra, 0, V())
      requires Fresh(v0.l.chains, v0.max, extra) && v0.store.Keys == v0.l.chains.Keys
      modifies `fat, `fatDirty, `layout, `store
      ensures Sound() && Growing(v0, v0.l.chains[obj], v0.store[obj], obj, extra, 1, V())
    {
      hide VolOk, Meta, ClustersOf, LogicalView, GrowingChains, GrowingStore, Cl, Md, Disk, ZeroPad;
      ghost var v := V();
      GrowStep(v0, v0.l.chains[obj], v0.store[obj], obj, extra, 0, v);
      assert v0.l.chains[obj] + extra[..0] == v0.l.chains[obj];
      var step := WriteFat(last, Next(extra[0]));
      layout := JoinLayout(layout, obj, extra[0]);
      store := (store - {extra[0]})[obj := store[obj] + store[extra[0]]];
      assert V() == Joined(v, obj, extra[0]);
    }

    /** Links the new clusters one behind the other; the first one is in place already. */
    method LinkClusters(extra: seq<nat>, ghost obj: nat, ghost v0: Vol, ghost ch: seq<nat>, ghost bytes: seq<byte>)
      requires Sound() && extra != []
      requires Growing(v0, ch, bytes, obj, extra, 1, V())
      requires Fresh(v0.l.chains, v0.max, extra) && v0.store.Keys == v0.l.chains.Keys
      modifies `fat, `fatDirty, `layout, `store
      ensures Sound() && |fat| == |v0.fat|
      ensures layout.chains == v0.l.chains[obj := ch + extra]
      ensures store == v0.store[obj := bytes + ZeroPad(|extra|, cs)]
      ensures forall c :: 0 <= c < |fat| && c !in extra && (ch == [] || c != Last(ch)) ==> fat[c] == v0.fat[c]
    {
      hide VolOk, Meta, ClustersOf, LogicalView, GrowingChains, GrowingStore, Cl, Md, Disk, ZeroPad;
      for idx := 0 to |extra|
        invariant Sound()
        invariant Growing(v0, ch, bytes, obj, extra, Min(idx + 1, |extra|), V())
      {
        ghost var v := V();
        if idx + 1 < |extra| {
          GrowStep(v0, ch, bytes, obj, extra, idx + 1, v);
          assert Last(ch + extra[..idx + 1]) == extra[idx];
          var step := WriteFat(extra[idx], Next(extra[idx + 1]));
          layout := JoinLayout(layout, obj, extra[idx + 1]);
          store := (store - {extra[idx + 1]})[obj := store[obj] + store[extra[idx + 1]]];
          assert V() == Joined(v, obj, extra[idx + 1]);
        } else {
          GrowLast(v0, ch, bytes, obj, extra, v);
          assert fat[extra[idx] := EndOfChain] == fat;
          var step := WriteFat(extra[idx], EndOfChain);
          assert V() == v.(dirty := true);
        }
      }
      GrowEnd(v0, ch, bytes, obj, extra, V());
    }

    // --- byte stream over a chain ----------------------------------------------------------------------

    /** An iterator over a chain that has skipped `n` clusters, or all if there are fewer. */
    method SkipChain(start: nat, n: nat) returns (r: Result<ChainIter>)
      requires Sound() && start in layout.chains
      ensures r.Success? && fresh(r.value) && r.value.fs == this
      ensures r.Success? ==> r.value.Rest() == Oks(layout.chains[start][Min(n, |layout.chains[start]|)..])
    {
      hide VolOk, Meta, ClustersOf, LogicalView, WalkFrom, Walk, ChainAt, Oks, Cl, Md, Disk, V;
      ghost var ch := ChainOfStart(start);
      assert ch == layout.chains[start] by { ChainAtIs(layout, start); }
      OksTail(ch, 0);
      assert ch[0..] == ch;
      var newIt := NewChainIter(this, start);
      var it := newIt.value;
      var i := 0;
      while i < n
        invariant it.fs == this && fresh(it)
        invariant i <= n && i <= |ch| && it.Rest() == Oks(ch[i..])
      {
        OksTail(ch, i);
        var item := it.Next();
        if item.None? {
          break;
        }
        i := i + 1;
      }
      return Success(it);
    }

    /** Bytes `[offset..offset + len]` of an object; never past its end. */
    method ReadChainBytes(start: nat, offset: nat, len: nat) returns (r: Result<seq<byte>>)
      requires Sound() && start in layout.chains
      ensures start in store
      ensures len == 0 ==> r == Success([])
      ensures len > 0 && offset + len <= |store[start]| ==> r == Success(store[start][offset..offset + len])
      ensures len > 0 && offset + len > |store[start]| ==> r == Failure(CorruptFs(BeyondChain))
    {
      hide VolOk, Meta, ClustersOf, LogicalView, WalkFrom, Walk, Oks, Cl, Md, Disk, ClusterNo, Room, Slice, Fits, V;
      ghost var ch := layout.chains[start];
      ObjectChain(start);
      ghost var s := store[start];
      if len == 0 {
        return Success([]);
      }
      SliceJoin(s, offset, offset, offset + len);
      var out, cursor, remaining := [], offset, len;
      var k := ClusterNo(cursor, cs);
      var skipped := SkipChain(start, k);
      var it := skipped.value;
      while remaining > 0
        invariant it.fs == this && fresh(it) && it.Rest() == Oks(ch[Min(k, |ch|)..])
        invariant 0 <= remaining == len - |out| && cursor == offset + |out|
        invariant remaining > 0 ==> k == ClusterNo(cursor, cs)
        invariant (|out| > 0 ==> cursor <= |s|) && out == Slice(s, offset, cursor)
      {
        CursorInside(cursor, |ch|, cs, |s|);
        OksTail(ch, Min(k, |ch|));
        var item := it.Next();
        if item.None? {
          return Failure(CorruptFs(BeyondChain));
        }
        var chunk := Min(remaining, Room(cursor, cs));
        var piece := ReadPiece(start, k, cursor, chunk, item.value.Extract());
        SliceJoin(s, offset, cursor, cursor + chunk);
        out := out + piece;
        cursor := cursor + chunk;
        remaining := remaining - chunk;
        k := k + 1;
      }
      return Success(out);
    }

    /** One round of the read loop: part of cluster number `k` of the chain. */
    method ReadPiece(start: nat, k: nat, cursor: nat, chunk: nat, cluster: nat) returns (piece: seq<byte>)
      requires Sound() && start in layout.chains && k < |layout.chains[start]| && cluster == layout.chains[start][k]
      requires k == ClusterNo(cursor, cs) && chunk <= Room(cursor, cs)
      ensures start in store && cursor + chunk <= |store[start]|
      ensures piece == store[start][cursor..cursor + chunk]
    {
      hide VolOk, Meta, ClustersOf, LogicalView, Chunk, ClusterNo, Room;
      VolChain(V(), start);
      VolPart(V(), start, k);
      CursorRead(store[start], cursor, chunk, |layout.chains[start]|, cs);
      var bytes := ReadClusterBytes(cluster);
      var inCluster := cs - Room(cursor, cs);
      piece := bytes.value[inCluster..inCluster + chunk];
    }

    lemma ObjectChain(s: nat)
      requires Sound() && s in layout.chains
      ensures cs > 0 && s in store && |store[s]| == |layout.chains[s]| * cs
    {
      hide VolOk;
      VolChain(V(), s);
    }

    /** Overwrites bytes of an object from `offset` on; when the device fails, only that object may have changed. */
    method WriteChainBytes(start: nat, offset: nat, data: seq<byte>) returns (r: Outcome)
      requires Sound() && start in layout.chains
      modifies `store, device.inner
      ensures Sound() && Md() == old(Md())
      ensures start in old(store) && store.Keys == old(store).Keys && |store[start]| == |old(store)[start]|
      ensures forall s :: s in store && s != start ==> store[s] == old(store)[s]
      ensures data == [] ==> r == Pass && store == old(store) && Disk() == old(Disk())
      ensures r.Pass? ==> device.inner.faults == old(device.inner.faults)
      ensures r.Pass? && data != [] ==>
        && offset + |data| <= |old(store)[start]|
        && store == old(store)[start := Splice(old(store)[start], offset, data)]
      ensures offset + |data| <= |old(store)[start]| && r.Fail? ==>
        r.error == DeviceFault && device.inner.faults + 1 == old(device.inner.faults)
      ensures SameOutside(old(store)[start], store[start], offset, offset + |data|)
    {
      hide VolOk, Meta, ClustersOf, LogicalView, WalkFrom, Walk, Oks, Cl, Md, Disk, ClusterNo, Room, Splice, Fits, V,
        SameOutside;
      ghost var ch := layout.chains[start];
      ObjectChain(start);
      ghost var s0 := store[start];
      OutsideRefl(s0, offset);
      if data == [] {
        return Pass;
      }
      var written, cursor, remaining := 0, offset, |data|;
      var k := ClusterNo(cursor, cs);
      var skipped := SkipChain(start, k);
      var it := skipped.value;
      while remaining > 0
        invariant Sound() && Md() == old(Md()) && device.inner.faults == old(device.inner.faults)
        invariant it.fs == this && fresh(it) && it.Rest() == Oks(ch[Min(k, |ch|)..])
        invariant 0 <= written <= |data| && cursor == offset + written && remaining == |data| - written
        invariant remaining > 0 ==> k == ClusterNo(cursor, cs)
        invariant written == 0 ==> store == old(store)
        invariant written > 0 ==> cursor <= |s0| && store == old(store)[start := Splice(s0, offset, data[..written])]
        invariant SameOutside(s0, store[start], offset, cursor)
      {
        CursorInside(cursor, |ch|, cs, |s0|);
        OksTail(ch, Min(k, |ch|));
        var item := it.Next();
        if item.None? {
          OutsideWider(s0, store[start], offset, cursor, offset + |data|);
          return Fail(CorruptFs(BeyondChain));
        }
        var chunk := Min(remaining, Room(cursor, cs));
        ghost var s1 := store[start];
        r := WritePiece(start, k, cursor, data[written..written + chunk], item.value.Extract());
        OutsideTrans(s0, s1, store[start], offset, cursor, cursor, cursor + chunk);
        if r.Fail? {
          OutsideWider(s0, store[start], offset, cursor + chunk, offset + |data|);
          return;
        }
        PiecesJoin(s0, offset, data, written, chunk);
        PutTwice(old(store), start, Splice(s0, offset, data[..written]), store[start]);
        cursor := cursor + chunk;
        written := written + chunk;
        remaining := remaining - chunk;
        k := k + 1;
      }
      assert data[..written] == data;
      return Pass;
    }

    /** One round of the write loop: change part of cluster number `k` of the chain. */
    method WritePiece(start: nat, k: nat, cursor: nat, piece: seq<byte>, cluster: nat) returns (r: Outcome)
      requires Sound() && start in layout.chains && k < |layout.chains[start]| && cluster == layout.chains[start][k]
      requires k == ClusterNo(cursor, cs) && |piece| <= Room(cursor, cs)
      modifies `store, device.inner
      ensures Sound() && Md() == old(Md())
      ensures start in old(store) && store.Keys == old(store).Keys && |store[start]| == |old(store)[start]|
      ensures forall s :: s in store && s != start ==> store[s] == old(store)[s]
      ensures r.Pass? ==>
        && device.inner.faults == old(device.inner.faults) && cursor + |piece| <= |old(store)[start]|
        && store == old(store)[start := Splice(old(store)[start], cursor, piece)]
      ensures r.Fail? ==> r.error == DeviceFault && device.inner.faults + 1 == old(device.inner.faults)
      ensures SameOutside(old(store)[start], store[start], cursor, cursor + |piece|)
    {
      hide VolOk, Meta, ClustersOf, LogicalView, Chunk, PutChunk, Stream, ClusterNo, Room, Torn, SameOutside;
      ghost var v := V();
      VolChain(v, start);
      VolPart(v, start, k);
      CursorRead(store[start], cursor, 0, |layout.chains[start]|, cs);
      CursorWrite(store[start], cursor, piece, |layout.chains[start]|, cs);
      var bytes := ReadClusterBytes(cluster);
      var changed := Splice(bytes.value, cs - Room(cursor, cs), piece);
      VolWrite(v, start, k, changed);
      r := WriteClusterBytes(cluster, changed);
      if r.Pass? {
        SpliceOutside(store[start], cursor, piece);
        store := store[start := Splice(store[start], cursor, piece)];
      } else {
        VolOthers(v, start, Cl());
        PieceTorn(v, start, k, changed, cursor, piece, Cl());
        store := store[start := Stream(Cl(), layout.chains[start])];
      }
    }

    /** A torn cluster is a torn piece of the object. */
    lemma PieceTorn(v: Vol, start: nat, k: nat, changed: seq<byte>, cursor: nat, piece: seq<byte>, cl: Clusters)
      requires VolOk(v) && v.cs > 0 && start in v.l.chains && start in v.store && k < |v.l.chains[start]|
      requires |v.store[start]| == |v.l.chains[start]| * v.cs && cursor + |piece| <= |v.store[start]|
      requires PutChunk(v.store[start], k, v.cs, changed) == Splice(v.store[start], cursor, piece)
      requires var c := v.l.chains[start][k];
        Torn(At(v.cl, c), changed, At(cl, c)) && forall d :: d != c ==> At(cl, d) == At(v.cl, d)
      requires |changed| == v.cs
      ensures SameOutside(v.store[start], Stream(cl, v.l.chains[start]), cursor, cursor + |piece|)
    {
      hide PutChunk, Splice, Stream, Torn, SameOutside;
      VolPart(v, start, k);
      VolDistinct(v, start);
      hide VolOk;
      StreamTornAt(v.cl, cl, v.l.chains[start], k, changed, v.cs);
      TornSplice(v.store[start], cursor, piece, Stream(cl, v.l.chains[start]));
    }

    /** Zeroes bytes of an object, in pieces of at most 256 bytes. */
    method ZeroFillChainRange(start: nat, offset: nat, len: nat) returns (r: Outcome)
      requires Sound() && start in layout.chains && start in store && offset + len <= |store[start]|
      modifies `store, device.inner
      ensures Sound() && Md() == old(Md())
      ensures store.Keys == old(store).Keys && |store[start]| == |old(store)[start]|
      ensures forall s :: s in store && s != start ==> store[s] == old(store)[s]
      ensures r.Pass? ==>
        device.inner.faults == old(device.inner.faults)
        && store == old(store)[start := ZeroRange(old(store)[start], offset, len)]
      ensures r.Fail? ==> r.error == DeviceFault && device.inner.faults + 1 == old(device.inner.faults)
      ensures SameOutside(old(store)[start], store[start], offset, offset + len)
    {
      hide VolOk, Meta, ClustersOf, LogicalView, Cl, Md, Disk, V, ZeroRange, Zeros, SameOutside;
      var written := 0;
      var size := Min(cs, 256);
      ghost var s0 := store[start];
      OutsideRefl(s0, offset);
      ZeroRangeJoin(s0, offset, 0, 0);
      while written < len
        invariant 0 <= written <= len
        invariant Sound() && Md() == old(Md()) && device.inner.faults == old(device.inner.faults)
        invariant store == old(store)[start := ZeroRange(s0, offset, written)]
        invariant SameOutside(s0, store[start], offset, offset + written)
        decreases len - written
      {
        var chunk := Min(len - written, size);
        ZeroRangeJoin(s0, offset, written, chunk);
        ghost var s1 := store[start];
        r := WriteChainBytes(start, offset + written, Zeros(chunk));
        OutsideTrans(s0, s1, store[start], offset, offset + written, offset + written, offset + written + chunk);
        if r.Fail? {
          OutsideWider(s0, store[start], offset, offset + written + chunk, offset + len);
          return;
        }
        written := written + chunk;
      }
      return Pass;
    }

    // --- directory slots -------------------------------------------------------------------------------

    lemma DirObject(d: nat)
      requires Ready() && d in view.dirs
      ensures d in layout.chains && layout.chains[d] != [] && d in store
      ensures |store[d]| == |layout.chains[d]| * cs && |store[d]| % cs == 0 && |store[d]| / cs == |layout.chains[d]|
      ensures view.dirs[d] == Slots(cs, store[d]) && |view.dirs[d]| == |layout.chains[d]| * PerCluster(cs)
    {
      assert V().store.Keys == V().l.chains.Keys;
      VolChain(V(), d);
      hide VolOk, Slots;
      DivModUnique(|store[d]|, cs, |layout.chains[d]|, 0);
    }

    method ReadDirSlot(loc: Loc) returns (r: Result<DirSlot>)
      requires Ready() && loc.dir in view.dirs
      ensures HasSlot(view, loc) ==> r == Success(view.dirs[loc.dir][loc.idx])
      ensures !HasSlot(view, loc) ==> r == Failure(CorruptFs(BeyondChain))
    {
      hide VolOk, Meta, ClustersOf, LogicalView, Cl, Md, Disk, V, Represents, Slots, SlotOffset;
      DirObject(loc.dir);
      SlotGet(cs, store, view, loc);
      var bytes :- ReadChainBytes(loc.dir, SlotOffset(cs, loc.idx), FCB_SIZE);
      return Success(DecodeSlot(bytes));
    }

    method ReadFcbAt(loc: Loc) returns (r: Result<Fcb>)
      requires Ready() && loc.dir in view.dirs
      ensures r.Success? <==> HasSlot(view, loc) && view.dirs[loc.dir][loc.idx].Occupied?
      ensures r.Success? ==> EntryAt(view, loc, r.value) && Storable(r.value)
      ensures r.Failure? ==> r.error == if HasSlot(view, loc) then NotFoundAt(loc) else CorruptFs(BeyondChain)
    {
      hide VolOk, Meta, ClustersOf, LogicalView, Cl, Md, Disk, V, Slots, SlotOffset;
      if HasSlot(view, loc) {
        DirObject(loc.dir);
        SlotGet(cs, store, view, loc);
        DecodedIsStorable(SlotBytes(cs, store[loc.dir], loc.idx));
      }
      hide Represents;
      var slot :- ReadDirSlot(loc);
      match slot {
        case Occupied(fcb) => return Success(fcb);
        case _ => return Failure(NotFoundAt(loc));
      }
    }

    /** Of the object of a directory only the bytes of one slot have changed. */
    ghost predicate SlotOnly(store0: Store, store1: Store, loc: Loc)
    {
      && cs >= FCB_SIZE && loc.dir in store0 && loc.dir in store1
      && SameOutside(store0[loc.dir], store1[loc.dir], SlotOffset(cs, loc.idx), SlotOffset(cs, loc.idx) + FCB_SIZE)
    }

    /** The volume but for the bytes of one slot. */
    ghost predicate SlotTorn(store0: Store, store1: Store, loc: Loc)
    {
      && store1.Keys == store0.Keys && (forall s :: s in store1 && s != loc.dir ==> store1[s] == store0[s])
      && SlotOnly(store0, store1, loc)
    }

    /** Objects that are no directories, and are not `start`, are as they were. */
    ghost predicate DirsOnly(v0: View, store0: Store, store1: Store, start: nat)
    {
      forall s :: s in store0 && s !in v0.dirs && s != start ==> s in store1 && store1[s] == store0[s]
    }

    method WriteSlot(loc: Loc, bytes: seq<byte>) returns (r: Outcome)
      requires Ready() && HasSlot(view, loc) && |bytes| == FCB_SIZE
      modifies `store, `view, device.inner
      ensures Sound() && Md() == old(Md())
      ensures r.Pass? ==>
        && Ready() && device.inner.faults == old(device.inner.faults)
        && view == PutSlot(old(view), loc, DecodeSlot(bytes))
      ensures r.Fail? ==> r.error == DeviceFault && device.inner.faults + 1 == old(device.inner.faults)
      ensures store.Keys == old(store).Keys
      ensures forall s :: s in store && s != loc.dir ==> store[s] == old(store)[s]
      ensures SlotOnly(old(store), store, loc)
    {
      hide VolOk, Meta, ClustersOf, LogicalView, Cl, Md, Disk, V, Represents, SlotOffset, Splice, DecodeSlot,
        SameOutside;
      DirObject(loc.dir);
      SlotPut(cs, store, view, loc, bytes);
      r := WriteChainBytes(loc.dir, SlotOffset(cs, loc.idx), bytes);
      if r.Pass? {
        view := PutSlot(view, loc, DecodeSlot(bytes));
      }
    }

    method WriteFcbAt(loc: Loc, fcb: Fcb) returns (r: Outcome)
      requires Ready() && HasSlot(view, loc) && Storable(fcb)
      modifies `store, `view, device.inner
      ensures Sound() && Md() == old(Md())
      ensures r.Pass? ==>
        && Ready() && device.inner.faults == old(device.inner.faults)
        && view == PutSlot(old(view), loc, Occupied(fcb))
      ensures r.Fail? ==> r.error == DeviceFault && device.inner.faults + 1 == old(device.inner.faults)
      ensures store.Keys == old(store).Keys
      ensures forall s :: s in store && s != loc.dir ==> store[s] == old(store)[s]
      ensures SlotOnly(old(store), store, loc)
    {
      hide Ready, Sound, EncodeFcb, SlotOnly;
      SlotRoundTrip(fcb);
      r := WriteSlot(loc, EncodeFcb(fcb));
    }

    method DeleteDirSlot(loc: Loc) returns (r: Outcome)
      requires Ready() && HasSlot(view, loc)
      modifies `store, `view, device.inner
      ensures Sound() && Md() == old(Md())
      ensures r.Pass? ==>
        && Ready() && device.inner.faults == old(device.inner.faults)
        && view == PutSlot(old(view), loc, Deleted)
      ensures r.Fail? ==> r.error == DeviceFault && device.inner.faults + 1 == old(device.inner.faults)
      ensures store.Keys == old(store).Keys
      ensures forall s :: s in store && s != loc.dir ==> store[s] == old(store)[s]
      ensures SlotOnly(old(store), store, loc)
    {
      hide Ready, Sound, SlotOnly;
      assert DecodeSlot(DeletedBytes()) == Deleted;
      r := WriteSlot(loc, DeletedBytes());
    }

    /** Bytes taken by the entries of a directory. */
    method DirSizeOf(dir: nat) returns (r: Result<u32>)
      requires Ready() && dir in view.dirs
      ensures FCB_SIZE * Count(view.dirs[dir]) < U32_LIMIT && r == Success(FCB_SIZE * Count(view.dirs[dir]))
    {
      hide Ready, Count, CountTo;
      DirBytesFit(dir);
      ghost var slots := view.dirs[dir];
      var newIt := NewDirSlotIter(this, dir);
      var it := newIt.value;
      var count := 0;
      CountPrefix(slots, 0);
      while true
        invariant it.Valid() && it.fs == this && it.dirStart == dir && fresh(it) && fresh(it.chainIter)
        invariant it.entryIndex <= |slots| && count == CountTo(slots, it.entryIndex)
        decreases |slots| - it.entryIndex
      {
        CountPrefix(slots, it.entryIndex);
        var item := it.Next();
        if item.None? {
          return Success(count * FCB_SIZE);
        }
        var (loc, slot) := item.value.Extract();
        if slot.Occupied? {
          count := count + 1;
        }
      }
    }

    lemma DirBytesFit(dir: nat)
      requires Ready() && dir in view.dirs
      ensures FCB_SIZE * |view.dirs[dir]| < U32_LIMIT && Count(view.dirs[dir]) <= |view.dirs[dir]|
    {
      hide VolOk, Count, Slots, PerCluster, ClusterSize, DataClusterCount;
      DirObject(dir);
      VolChainBound(V(), dir);
      CountBound(view.dirs[dir]);
      VolumeBytes(boot);
      SlotsFit(|layout.chains[dir]|, max - 1, cs);
    }

    /** The first entry that shows the normalized name; start 0, which an empty file has, leads to none. */
    method Lookup(parent: nat, name: Str) returns (r: Result<(Loc, Fcb)>)
      requires Ready() && (parent in view.dirs || parent == 0)
      ensures Normalize(name).Failure? ==> r == Failure(InvalidName)
      ensures Normalize(name).Success? ==>
        var slots, key := RowAt(view, parent), Normalize(name).value;
        r == match FindName(slots, key, 0)
             case Some(i) => Success((Loc(parent, i), slots[i].fcb))
             case None => Failure(NotFound)
    {
      hide Ready, Normalize;
      NormalizeError(name);
      var key :- Normalize(name);
      ghost var slots := RowAt(view, parent);
      var newIt := NewDirSlotIter(this, parent);
      var it := newIt.value;
      while true
        invariant it.Valid() && it.fs == this && it.dirStart == parent && fresh(it) && fresh(it.chainIter)
        invariant it.entryIndex <= |slots| && FindName(slots, key, 0) == FindName(slots, key, it.entryIndex)
        decreases |slots| - it.entryIndex
      {
        var item := it.Next();
        if item.None? {
          return Failure(NotFound);
        }
        var (loc, slot) := item.value.Extract();
        if slot.Occupied? && ToStr(slot.fcb.name) == key {
          return Success((loc, slot.fcb));
        }
      }
    }

    /** The first slot without an entry, if there is one. */
    method ScanFree(dir: nat) returns (r: Option<Loc>, next: nat)
      requires Ready() && dir in view.dirs
      ensures next <= |view.dirs[dir]| && (r.None? ==> next == |view.dirs[dir]|)
      ensures r == match FindFree(view.dirs[dir], 0) case Some(i) => Some(Loc(dir, i)) case None => None
    {
      hide Ready;
      ghost var slots := view.dirs[dir];
      var newIt := NewDirSlotIter(this, dir);
      var it := newIt.value;
      next := 0;
      while true
        invariant it.Valid() && it.fs == this && it.dirStart == dir && fresh(it) && fresh(it.chainIter)
        invariant it.entryIndex == next <= |slots| && FindFree(slots, 0) == FindFree(slots, next)
        decreases |slots| - it.entryIndex
      {
        var item := it.Next();
        if item.None? {
          return None, next;
        }
        var (loc, slot) := item.value.Extract();
        next := loc.idx + 1;
        if !slot.Occupied? {
          return Some(loc), next;
        }
      }
    }

    /** Is any slot of the directory occupied? */
    method AnyOccupied(dir: nat) returns (r: Result<bool>)
      requires Ready() && dir in view.dirs
      ensures r == Success(Count(view.dirs[dir]) > 0)
    {
      hide Ready;
      ghost var slots := view.dirs[dir];
      CountBound(slots);
      hide Count;
      var newIt := NewDirSlotIter(this, dir);
      var it := newIt.value;
      while true
        invariant it.Valid() && it.fs == this && it.dirStart == dir && fresh(it) && fresh(it.chainIter)
        invariant it.entryIndex <= |slots|
        invariant forall i :: 0 <= i < it.entryIndex ==> !slots[i].Occupied?
        decreases |slots| - it.entryIndex
      {
        var item := it.Next();
        if item.None? {
          return Success(false);
        }
        var (loc, slot) := item.value.Extract();
        if slot.Occupied? {
          return Success(true);
        }
      }
    }

    /** A slot to put an entry in: the first one without an entry, or the first one of a new cluster. */
    method FillFreeDirSlot(dir: nat) returns (r: Result<Loc>)
      requires Ready() && dir in view.dirs
      modifies `fat, `fatDirty, `layout, `store, `view, device.inner
      ensures Ready()
      ensures r.Failure? ==> fat == old(fat) && layout == old(layout) && store == old(store) && view == old(view)
      ensures r.Success? ==> device.inner.faults == old(device.inner.faults)
      ensures var slots := old(view).dirs[dir];
        match FindFree(slots, 0)
        case Some(i) =>
          && r == Success(Loc(dir, i)) && fat == old(fat) && fatDirty == old(fatDirty) && Disk() == old(Disk())
          && layout == old(layout) && store == old(store) && view == old(view)
        case None =>
          && (r.Success? ==>
                && r.value == Loc(dir, |slots|) && PerCluster(cs) > 0 && |FreeSet(old(fat), max)| >= 1
                && view == ExtendDir(old(view), dir, PerCluster(cs))
                && Extended(old(V()), dir, dir, LowestFree(old(fat), ROOT, max, 1), V()))
          && (r.Failure? ==>
                if |FreeSet(old(fat), max)| < 1
                then r.error == NoSpace && fatDirty == old(fatDirty) && Disk() == old(Disk())
                     && device.inner.faults == old(device.inner.faults)
                else r.error == DeviceFault && device.inner.faults + 1 == old(device.inner.faults))
    {
      hide VolOk, Represents, Meta, ClustersOf, LogicalView, Cl, Md, Disk, ChainAt, FreeSet, MarkAll, AllocAll, ZeroAll;
      ghost var v0 := V();
      DirObject(dir);
      VolChain(v0, dir);
      ChainAtIs(layout, dir);
      var found, next := ScanFree(dir);
      if found.Some? {
        return Success(found.value);
      }
      var added := AllocateClusters(1);
      if added.Failure? {
        return Failure(added.error);
      }
      var last := LastOfDir(dir, v0, added.value);
      SlotsGrow(cs, v0.store, view, dir);
      SlotNoLess(cs, 0, 1);
      var head := AppendClusters(dir, last, added.value, v0);
      assert ObjectAt(v0.store, dir) == v0.store[dir];
      view := ExtendDir(view, dir, PerCluster(cs));
      return Success(Loc(dir, next));
    }

    /** The last cluster of a directory, after a cluster was allocated for it. */
    method LastOfDir(dir: nat, ghost v0: Vol, ghost added: seq<nat>) returns (last: Option<nat>)
      requires Sound() && VolOk(v0) && dir in v0.l.chains && v0.max == max
      requires added == LowestFree(v0.fat, ROOT, max, |added|) && layout == AllocAll(v0.l, added)
      ensures last == Some(Last(v0.l.chains[dir]))
    {
      hide VolOk, Meta, ClustersOf, LogicalView, Cl, Md, Disk, AllocAll;
      AllocatedAreFresh(v0, added);
      AllocAllChains(v0.l, added);
      VolChain(v0, dir);
      ChainAtIs(layout, dir);
      var end := ChainEnd(dir);
      last := end.value.1;
    }

    /** Depth-first search for the entry of a directory; `path` are the directories above. */
    method FindDirLoc(dir: nat, target: nat, ghost path: set<nat>, ghost stale: nat) returns (r: Result<Option<Loc>>)
      requires Ready() && Coherent(cs, view, stale)
      requires dir in view.dirs && target in view.dirs && target != ROOT
      requires path <= view.dirs.Keys && dir in view.depth
      requires forall p :: p in path ==> p in view.depth && view.depth[p] < view.depth[dir]
      ensures r.Success? && target in view.refs && target in view.depth
      ensures r.value.Some? ==> r.value.value == view.refs[target]
      ensures r.value.None? ==> !Below(view, dir, target, view.depth[target])
      decreases view.dirs.Keys - path
    {
      hide Ready, Coherent, Below, RefOk;
      ParentOf(cs, view, stale, target);
      assert dir !in path;
      ghost var slots, n := view.dirs[dir], view.depth[target];
      var newIt := NewDirSlotIter(this, dir);
      var it := newIt.value;
      while true
        invariant it.Valid() && it.fs == this && it.dirStart == dir && fresh(it) && fresh(it.chainIter)
        invariant it.entryIndex <= |slots|
        invariant forall i :: 0 <= i < it.entryIndex ==> NotVia(slots[i], target, n)
        decreases |slots| - it.entryIndex
      {
        var item := it.Next();
        if item.None? {
          NotBelow(dir, target, n, stale);
          return Success(None);
        }
        var (loc, slot) := item.value.Extract();
        if slot.Occupied? && slot.fcb.IsDir() {
          var sub := slot.fcb.start;
          assert EntryAt(view, loc, slot.fcb);
          EntryFacts(cs, view, stale, loc, slot.fcb);
          if sub == target {
            return Success(Some(loc));
          }
          var found := FindDirLoc(sub, target, path + {dir}, stale);
          if found.value.Some? {
            return found;
          }
        }
      }
    }

    /** The way to `target` does not lead through this slot. */
    ghost predicate NotVia(x: DirSlot, target: nat, n: nat)
      reads `view
    {
      x.Occupied? && x.fcb.IsDir() ==> x.fcb.start != target && !Below(view, x.fcb.start, target, n)
    }

    lemma NotBelow(dir: nat, target: nat, n: nat, stale: nat)
      requires Coherent(cs, view, stale) && dir in view.dirs && target in view.dirs && target != ROOT
      requires target in view.depth && n == view.depth[target]
      requires forall i :: 0 <= i < |view.dirs[dir]| ==> NotVia(view.dirs[dir][i], target, n)
      ensures !Below(view, dir, target, n)
    {
      if Below(view, dir, target, n) {
        var x := BelowViaChild(view, dir, target, n);
        BelowIsDir(cs, view, stale, x, target, n);
        ParentOf(cs, view, stale, x);
      }
    }

    /** Writes the current size of a directory into its entry. */
    method RefreshDirSize(dir: nat, now: Stamp) returns (r: Outcome)
      requires Ready() && Coherent(cs, view, dir) && dir in view.dirs
      modifies `store, `view, device.inner
      ensures r.Fail? ==> Sound() && r.error == DeviceFault && Faulted()
      ensures r.Fail? ==> dir in old(view).refs && SlotTorn(old(store), store, old(view).refs[dir])
      ensures r.Fail? ==> old(view).refs[dir].dir in old(view).dirs
      ensures r.Pass? ==>
        Ready() && Coherent(cs, view, ROOT) && Steady() && view == Refreshed(old(view), dir, now)
    {
      hide Ready, Sound, Coherent, Below, Count, RefOk, EntryOk, Refreshed, PutSlot, SlotOnly;
      ghost var v := view;
      RootIsNotStale(cs, view, dir);
      RefreshedIs(v, dir, now);
      if dir == ROOT {
        return Pass;
      }
      ParentOf(cs, view, dir, dir);
      AllBelowRoot(cs, view, dir, dir);
      var size := DirSizeOf(dir);
      var found := FindDirLoc(ROOT, dir, {}, dir);
      var loc := found.value.value;
      var fcb := ReadFcbAt(loc);
      var fcb' := fcb.value.(size := size.value).Touch(now);
      RefreshOk(cs, view, loc, fcb.value, fcb');
      r := WriteFcbAt(loc, fcb');
    }

    // --- growing files ----------------------------------------------------------------------------------

    /** The chain is as long as the recorded size demands. */
    ghost predicate FcbFits(f: Fcb)
      reads `store
    {
      && cs > 0 && (f.start == 0 <==> f.size == 0)
      && (f.start != 0 ==> f.start in store && |store[f.start]| == Whole(f.size, cs))
    }

    lemma FcbChain(f: Fcb)
      requires Sound() && FcbFits(f)
      ensures f.start == 0 || f.start in layout.chains
      ensures |ChainAt(layout, f.start)| == DivCeil(f.size, cs)
      ensures |ObjectAt(store, f.start)| == Whole(f.size, cs) && f.size <= |ObjectAt(store, f.start)|
    {
      hide VolOk;
      NoObjectZero(V());
      DivCeilBounds(f.size, cs);
      if f.start != 0 {
        VolChain(V(), f.start);
        MulOrder(|layout.chains[f.start]|, DivCeil(f.size, cs), cs);
        MulOrder(DivCeil(f.size, cs), |layout.chains[f.start]|, cs);
      }
    }

    /** Cuts a chain back to the length it had in `v0`, restoring the FAT of `v0`. */
    method TrimBack(start: nat, keep: nat, ghost v0: Vol, ghost start0: nat) returns (r: Outcome)
      requires Sound() && Restores(v0, start0, start, V()) && keep == |ChainAt(v0.l, start0)|
      modifies `fat, `fatDirty, `layout, `store, device.inner
      ensures Sized()
      ensures r.Fail? ==> r.error == DeviceFault && device.inner.faults < old(device.inner.faults)
      ensures r.Pass? ==>
        && Sound() && device.inner.faults == old(device.inner.faults)
        && fat == v0.fat && layout.chains == v0.l.chains && store.Keys == layout.chains.Keys
        && forall s :: s in store && s != start0 ==> s in v0.store && store[s] == v0.store[s]
      ensures r.Pass? && start0 in v0.l.chains ==>
        start in old(store) && start0 in store && store[start0] <= old(store)[start]
    {
      hide VolOk, Cl, Md, Disk, TrimmedFat, TrimmedChains;
      NoObjectZero(V());
      r := TrimChainLen(start, keep);
      if r.Pass? {
        NoObjectZero(V());
        if start0 in v0.l.chains { VolChain(V(), start0); }
      }
    }

    /** No object holds 2^32 bytes. */
    lemma ObjectBytes(s: nat)
      requires Sound() && s in layout.chains
      ensures s in store && |store[s]| < U32_LIMIT
    {
      hide VolOk, ClusterSize, DataClusterCount;
      VolChain(V(), s);
      VolChainBound(V(), s);
      VolumeBytes(boot);
      MulMono(|layout.chains[s]|, max - 1, cs);
    }

    /** Extends the chain of a file so that it has room up to `end`. */
    method MakeRoom(fcb: Fcb, end: nat) returns (r: Result<Fcb>, ghost extra: seq<nat>)
      requires Sound() && FcbFits(fcb)
      modifies `fat, `fatDirty, `layout, `store, device.inner
      ensures Sound()
      ensures r.Failure? ==> fat == old(fat) && layout == old(layout) && store == old(store)
      ensures Missing(fcb.size, end, cs) > old(FreeCount()) ==>
        && r == Failure(NoSpace) && fatDirty == old(fatDirty) && Disk() == old(Disk())
        && device.inner.faults == old(device.inner.faults)
      ensures Missing(fcb.size, end, cs) <= old(FreeCount()) && r.Failure? ==>
        r.error == DeviceFault && device.inner.faults + 1 == old(device.inner.faults)
      ensures r.Success? ==>
        && device.inner.faults == old(device.inner.faults)
        && r.value == fcb.(start := r.value.start) && end < U32_LIMIT
        && RoomMade(old(V()), fcb.start, fcb.size, r.value.start, end, V())
        && Reached(old(V()), fcb.start, r.value.start, extra, V())
        && (r.value.start == 0 || r.value.start in layout.chains)
        && FreeCount() + Missing(fcb.size, end, cs) == old(FreeCount())
    {
      hide VolOk, Meta, ClustersOf, LogicalView, Cl, Md, Disk, FreeSet, ChainAt, ObjectAt, Reached, RoomFor, Whole,
        Extended, LowestFree, ChainGrew;
      FcbChain(fcb);
      ghost var v0 := V();
      LowestFreeCount(fat, max, Missing(fcb.size, end, cs));
      var needed := DivCeil(end, cs);
      r := EnsureFcbChainCapacity(fcb, needed);
      if r.Failure? {
        return r, [];
      }
      extra := ReachedBy(v0, fcb, r.value.start, needed);
      GrownAfter(v0, fcb, r.value.start, extra, end);
      GrewCount(v0, fcb.start, fcb.size, r.value.start, end, V());
    }

    /**
     Extends the chain if needed, writes the data and computes the new entry. A failing write after an
     extension is rolled back: the FAT is what it was.
     */
    method DoGrowingWrite(fcb: Fcb, offset: usize, data: seq<byte>, now: Stamp) returns (r: Result<(Fcb, nat)>)
      requires Sound() && FcbFits(fcb)
      modifies `fat, `fatDirty, `layout, `store, device.inner
      ensures Sized()
      ensures r.Success? || r.error != DeviceFault || !FaultedAgain() ==> Sound()
      ensures r.Failure? && !FaultedAgain() ==>
        && fat == old(fat) && layout.chains == old(layout.chains)
        && OnlyBytes(old(store), store, fcb.start, offset, offset + |data|, 0, 0, 0)
      ensures r.Failure? && r.error == DeviceFault ==> Faulted()
      ensures r.Failure? && r.error != DeviceFault ==>
        && r.error == (if offset + |data| >= USIZE_LIMIT then SeekOutOfBounds(offset) else NoSpace)
        && fat == old(fat) && store == old(store) && layout == old(layout) && fatDirty == old(fatDirty)
        && Disk() == old(Disk()) && device.inner.faults == old(device.inner.faults)
      ensures (r.Failure? && r.error != DeviceFault) <==>
        offset + |data| >= USIZE_LIMIT
        || Missing(fcb.size, offset + |data|, cs) > old(FreeCount())
      ensures r.Success? ==>
        && FreeCount() + Missing(fcb.size, offset + |data|, cs) == old(FreeCount())
        && offset + |data| < U32_LIMIT && device.inner.faults == old(device.inner.faults)
        && r.value == (fcb.(start := r.value.0.start, size := Max(fcb.size, offset + |data|)).Touch(now), offset
          + |data|)
        && WriteGrew(old(V()), fcb.start, fcb.size, r.value.0.start, offset, data, V())
    {
      hide VolOk, Meta, ClustersOf, LogicalView, Cl, Md, Disk, FreeSet, ChainAt, ObjectAt, Reached, RoomFor, DivCeil,
        Splice, ChainGrew, Missing, OnlyBytes;
      NothingChanged(store, fcb.start, offset, offset + |data|);
      if offset + |data| >= USIZE_LIMIT {
        return Failure(SeekOutOfBounds(offset));
      }
      var newEnd := offset + |data|;
      var oldCount := DivCeil(fcb.size, cs);
      FcbChain(fcb);
      NoObjectZero(V());
      ghost var v0 := V();
      var grown, extra := MakeRoom(fcb, newEnd);
      if grown.Failure? {
        return Failure(grown.error);
      }
      var fcb' := grown.value;
      if data != [] {
        var step := WriteOrTrim(fcb'.start, offset, data, oldCount, v0, fcb.start, extra);
        if step.Fail? {
          return Failure(step.error);
        }
      }
      if newEnd > fcb'.size {
        fcb' := fcb'.(size := newEnd);
      }
      return Success((fcb'.Touch(now), newEnd));
    }

    /** The clusters by which a chain was made long enough. */
    lemma ReachedBy(v0: Vol, fcb: Fcb, start: nat, needed: nat) returns (extra: seq<nat>)
      requires Sound() && v0.cs == cs && v0.max == max < |v0.fat|
      requires
        if needed <= |ChainAt(v0.l, fcb.start)| then start == fcb.start && fat == v0.fat && layout == v0.l
          && store == v0.store
        else
          var extra := LowestFree(v0.fat, ROOT, max, needed - |ChainAt(v0.l, fcb.start)|);
          |extra| == needed - |ChainAt(v0.l, fcb.start)| && Extended(v0, fcb.start, start, extra, V())
      ensures Reached(v0, fcb.start, start, extra, V())
      ensures |extra| == if needed > |ChainAt(v0.l, fcb.start)| then needed - |ChainAt(v0.l, fcb.start)| else 0
    {
      hide VolOk, ChainAt, LowestFree, Extended, Cl, Md, Fits;
      extra := if needed <= |ChainAt(v0.l, fcb.start)| then [] else
        LowestFree(v0.fat, ROOT, max, needed - |ChainAt(v0.l, fcb.start)|);
    }

    /** What a sufficient chain offers to a write that ends at `end`. */
    lemma GrownAfter(v0: Vol, fcb: Fcb, start: nat, extra: seq<nat>, end: nat)
      requires Sound() && VolOk(v0) && v0.cs == cs && v0.max == max < |v0.fat|
      requires (fcb.start == 0 <==> fcb.size == 0) && (fcb.start == 0 || fcb.start in v0.l.chains)
      requires |ObjectAt(v0.store, fcb.start)| == Whole(fcb.size, cs)
      requires Reached(v0, fcb.start, start, extra, V()) && |extra| == Missing(fcb.size, end, cs)
      ensures RoomMade(v0, fcb.start, fcb.size, start, end, V()) && end < U32_LIMIT
        && (start == 0 || start in layout.chains)
    {
      hide VolOk, ChainAt, ObjectAt, RoomFor, Missing, Whole, Reached, ChainGrew, Cl, Md;
      NoObjectZero(v0);
      NoObjectZero(V());
      GrownRoom(v0, fcb.start, fcb.size, start, extra, end, V());
      if start != 0 {
        ObjectBytes(start);
      }
    }

    /** The guarded write: on failure the chain is cut back. */
    method WriteOrTrim(start: nat, offset: nat, data: seq<byte>, oldCount: nat, ghost v0: Vol, ghost start0: nat,
      ghost extra: seq<nat>)
        returns (r: Outcome)
      requires Sound() && VolOk(v0) && (start0 == 0 || start0 in v0.l.chains) && oldCount == |ChainAt(v0.l, start0)|
      requires Reached(v0, start0, start, extra, V()) && start != 0 && start in store
      requires data != [] && offset + |data| <= |store[start]|
      modifies `fat, `fatDirty, `layout, `store, device.inner
      ensures Sized()
      ensures r.Pass? ==>
        && Sound() && device.inner.faults == old(device.inner.faults)
        && fat == old(fat) && layout == old(layout)
        && store == old(store)[start := Splice(old(store)[start], offset, data)]
      ensures r.Fail? ==> r.error == DeviceFault && Faulted()
      ensures r.Fail? && !FaultedAgain() ==>
        && Sound() && fat == v0.fat && layout.chains == v0.l.chains
        && OnlyBytes(v0.store, store, start0, offset, offset + |data|, 0, 0, 0)
    {
      hide VolOk, Meta, ClustersOf, LogicalView, Cl, Md, Disk, ChainAt, TrimmedFat, TrimmedChains, Extended, LowestFree,
        Reached, SameOutside, Restores;
      NoObjectZero(V());
      NoObjectZero(v0);
      UndoReached(v0, start0, start, extra, V());
      ghost var v1 := V();
      r := WriteChainBytes(start, offset, data);
      if r.Fail? {
        OutsideRefl([], 0);
        var trimmed := TakeBack(start, oldCount, v0, start0, extra, v1, offset, offset + |data|, 0, 0, 0);
        if trimmed.Fail? {
          return trimmed;
        }
      }
    }

    /** The rollback of a write that failed inside `[lo..hi]` of the grown object, or later in `[dlo..dhi]` of `d`. */
    method TakeBack(start: nat, keep: nat, ghost v0: Vol, ghost start0: nat, ghost extra: seq<nat>, ghost v1: Vol,
                    ghost lo: nat, ghost hi: nat, ghost d: nat, ghost dlo: nat, ghost dhi: nat) returns (r: Outcome)
      requires Sound() && VolOk(v0) && Restores(v0, start0, start, v1) && keep == |ChainAt(v0.l, start0)| && lo <= hi
      requires (start0 == 0 || start0 in v0.l.chains) && Reached(v0, start0, start, extra, v1) && v1.cs == cs
      requires fat == v1.fat && layout == v1.l && store.Keys == v1.store.Keys
      requires forall s :: s in store && s != start && s != d ==> store[s] == v1.store[s]
      requires d == 0 || (d in v0.l.chains && d != start0 && d in store)
      requires start in v1.store && start in store && SameOutside(v1.store[start], store[start], lo, hi)
      requires SameOutside(ObjectAt(v0.store, d), ObjectAt(store, d), dlo, dhi)
      modifies `fat, `fatDirty, `layout, `store, device.inner
      ensures Sized()
      ensures r.Fail? ==> r.error == DeviceFault && device.inner.faults < old(device.inner.faults)
      ensures r.Pass? ==>
        && Sound() && fat == v0.fat && layout.chains == v0.l.chains && device.inner.faults == old(device.inner.faults)
        && OnlyBytes(v0.store, store, start0, lo, hi, d, dlo, dhi)
    {
      hide VolOk, Cl, Md, Disk, ChainAt, Reached, SameOutside, Restores;
      NoObjectZero(v0);
      NoObjectZero(V());
      ghost var torn, v0' := store[start], if d == 0 then v0 else v0.(store := v0.store[d := store[d]]);
      if d == 0 { RestoresAgain(v0, start0, start, v1, V()); } else { RestoresStill(v0, start0, start, v1, d, V()); }
      r := TrimBack(start, keep, v0', start0);
      if r.Pass? {
        OutsideRefl([], lo);
        OutsideWider([], [], lo, lo, hi);
        ReachedSize(v0, start0, start, extra, v1);
        if start0 != 0 {
          SameLength(v0, V(), start0);
          CutBackBytes(v0, start0, start, extra, v1, torn, store[start0], lo, hi);
        }
        NoObjectZero(V());
      }
    }

    lemma SameLength(v0: Vol, v: Vol, s: nat)
      requires VolOk(v0) && VolOk(v) && s in v0.l.chains && v.l.chains == v0.l.chains && v.cs == v0.cs
      ensures s in v0.store && s in v.store && |v.store[s]| == |v0.store[s]|
    {
      VolChain(v0, s);
      VolChain(v, s);
    }

    lemma EntryFits(loc: Loc, fcb: Fcb, stale: nat)
      requires Ready() && Coherent(cs, view, stale) && EntryAt(view, loc, fcb) && fcb.IsFile()
      ensures FcbFits(fcb) && ObjectAt(store, fcb.start) == ObjectOf(view, fcb)
      ensures fcb.start != 0 ==> fcb.start in view.blobs && fcb.start in layout.chains
      ensures loc.dir in view.dirs && loc.dir in layout.chains && fcb.start != loc.dir
    {
      hide VolOk, Coherent, Whole;
      NoObjectZero(V());
      RootIsNotStale(cs, view, stale);
      ObjectFacts(cs, view, stale, loc, fcb);
    }

    /** Writes the entry of a file whose bytes have changed already. */
    method PutFileEntry(loc: Loc, ghost fcb: Fcb, fcb': Fcb, ghost bytes: seq<byte>, ghost content: seq<byte>)
      returns (r: Outcome)
      requires Sound() && Coherent(cs, view, ROOT) && EntryAt(view, loc, fcb) && Storable(fcb')
      requires CanRecord(cs, store, view, fcb, fcb', bytes, content)
      modifies `store, `view, device.inner
      ensures Sound() && Md() == old(Md()) && store.Keys == old(store).Keys
      ensures forall s :: s in store && s != loc.dir ==> store[s] == old(store)[s]
      ensures r.Pass? ==>
        && Ready() && device.inner.faults == old(device.inner.faults)
        && Coherent(cs, view, ROOT) && Updated(old(view), loc, fcb', content, view)
      ensures r.Fail? ==> r.error == DeviceFault && device.inner.faults + 1 == old(device.inner.faults)
      ensures SlotOnly(old(store), store, loc)
    {
      hide VolOk, Represents, Coherent, Cl, Md, Disk, MayName, FileOk, Files, Lost, SlotOnly;
      ghost var v := view;
      SetFileOk(cs, v, ROOT, loc, fcb, fcb', bytes);
      SetFileFiles(cs, v, ROOT, loc, fcb, fcb', bytes);
      SetFileLost(cs, v, ROOT, loc, fcb, fcb', bytes);
      view := PutBytes(v, fcb, fcb', bytes);
      r := WriteFcbAt(loc, fcb');
      if r.Pass? {
        EntryLast(cs, store, v, loc, fcb, fcb', bytes);
        view := SetFile(v, loc, fcb, fcb', bytes);
      }
    }

    /** All is as after the write, with `store1` for the objects, but for the slot of the entry, which is torn. */
    ghost predicate EntryTorn(v0: Vol, loc: Loc, fcb: Fcb, start: nat, offset: nat, data: seq<byte>, store1: Store)
      requires Sized() && v0.cs > 0 && v0.max < |v0.fat|
      reads `fat, `fatDirty, `layout, `store, device.inner
    {
      && WriteGrew(v0, fcb.start, fcb.size, start, offset, data, V().(store := store1))
      && store.Keys == store1.Keys && SlotOnly(store1, store, loc)
      && forall s :: s in store && s != loc.dir ==> store[s] == store1[s]
    }

    /**
     What a device fault during a write leaves: either the FAT of before, and of the objects only bytes that
     were to be written have changed; or the written volume, but for the slot of the entry.
     */
    ghost predicate WriteFaulted(v0: Vol, loc: Loc, fcb: Fcb, offset: nat, data: seq<byte>)
      requires Sized()
      reads `fat, `fatDirty, `layout, `store, device.inner
    {
      || (&& fat == v0.fat && layout.chains == v0.l.chains
          && OnlyBytes(v0.store, store, fcb.start, offset, offset + |data|, 0, 0, 0))
      || (v0.cs > 0 && v0.max < |v0.fat|
          && exists start, store1 :: EntryTorn(v0, loc, fcb, start, offset, data, store1))
    }

    lemma FaultedEarly(v0: Vol, loc: Loc, fcb: Fcb, offset: nat, data: seq<byte>)
      requires Sized() && fat == v0.fat && layout.chains == v0.l.chains
      requires OnlyBytes(v0.store, store, fcb.start, offset, offset + |data|, 0, 0, 0)
      ensures WriteFaulted(v0, loc, fcb, offset, data)
    {
      hide OnlyBytes, EntryTorn;
    }

    lemma FaultedLate(v0: Vol, loc: Loc, fcb: Fcb, start: nat, offset: nat, data: seq<byte>, v1: Vol)
      requires Sized() && v0.cs > 0 && v0.max < |v0.fat| && layout == v1.l
      requires WriteGrew(v0, fcb.start, fcb.size, start, offset, data, v1)
      requires store.Keys == v1.store.Keys && SlotOnly(v1.store, store, loc)
      requires forall s :: s in store && s != loc.dir ==> store[s] == v1.store[s]
      ensures WriteFaulted(v0, loc, fcb, offset, data)
    {
      hide SlotOnly, OnlyBytes, ChainGrew, RoomFor, Splice;
      assert EntryTorn(v0, loc, fcb, start, offset, data, v1.store);
    }

    /** A growing write and the update of the entry, as writes through a handle and by location share them. */
    method WriteData(loc: Loc, fcb: Fcb, offset: usize, data: seq<byte>, now: Stamp) returns (r: Result<(Fcb, nat)>)
      requires Ready() && Coherent(cs, view, ROOT) && EntryAt(view, loc, fcb) && fcb.IsFile() && Storable(fcb)
      modifies `fat, `fatDirty, `layout, `store, `view, device.inner
      ensures Sized() && (Steady() || Faulted())
      ensures Faulted() ==> r == Failure(DeviceFault)
      ensures FaultedOnce() ==> Sound() && WriteFaulted(old(V()), loc, fcb, offset, data)
      ensures offset + |data| >= USIZE_LIMIT ==> Steady()
      ensures Steady() ==> Ready() && Coherent(cs, view, ROOT)
      ensures Steady() ==>
        (r.Failure? <==> offset + |data| >= USIZE_LIMIT || Missing(fcb.size, offset + |data|, cs) > old(FreeCount()))
      ensures Steady() && r.Failure? ==>
        && r.error == (if offset + |data| >= USIZE_LIMIT then SeekOutOfBounds(offset) else NoSpace)
        && view == old(view) && fat == old(fat) && fatDirty == old(fatDirty) && Disk() == old(Disk())
      ensures r.Success? ==>
        && Steady() && r.value.1 == offset + |data|
        && Wrote(old(view), loc, fcb, offset, data, now, r.value.0, view)
        && FreeCount() + Missing(fcb.size, offset + |data|, cs) == old(FreeCount())
    {
      hide VolOk, Coherent, Represents, Cl, Md, Disk, FreeSet, Missing, Files, Updated, WriteBytes, RoomFor, FileOk,
        MayName, Whole, WriteFaulted, OnlyBytes, SlotOnly, WriteGrew;
      ghost var v := view;
      ghost var v0 := V();
      EntryFits(loc, fcb, ROOT);
      ObjectFacts(cs, view, ROOT, loc, fcb);
      var grown := DoGrowingWrite(fcb, offset, data, now);
      if grown.Failure? {
        if !FaultedAgain() { FaultedEarly(v0, loc, fcb, offset, data); }
        return Failure(grown.error);
      }
      var fcb' := grown.value.0;
      ghost var bytes := WriteToRecord(v0, V(), view, loc, fcb, fcb', offset, data);
      ghost var v1 := V();
      var step := PutFileEntry(loc, fcb, fcb', bytes, WriteBytes(Files(view)[loc], offset, data));
      if step.Fail? {
        FaultedLate(v0, loc, fcb, fcb'.start, offset, data, v1);
        return Failure(step.error);
      }
      return grown;
    }

    /** Of the grown object only the gap has changed, and of the directory only the slot. */
    ghost predicate GrowTorn(store0: Store, store2: Store, loc: Loc, start: nat, lo: nat, hi: nat)
    {
      start in store0 && start in store2 && SlotOnly(store0, store2, loc)
        && SameOutside(store0[start], store2[start], lo, hi)
    }

    lemma FillTorn(store0: Store, store1: Store, store2: Store, loc: Loc, start: nat, lo: nat, hi: nat)
      requires start in store0 && start in store1 && start in store2 && start != loc.dir && cs >= FCB_SIZE
      requires SameOutside(store0[start], store1[start], lo, hi) && store2[start] == store1[start]
      requires loc.dir in store0 && loc.dir in store1 && store1[loc.dir] == store0[loc.dir]
      requires store2 == store1 || SlotOnly(store1, store2, loc)
      ensures GrowTorn(store0, store2, loc, start, lo, hi)
    {
      hide SlotOffset;
    }

    lemma DirIsObject(store0: Store, loc: Loc)
      requires Represents(cs, store0, view) && HasSlot(view, loc)
      ensures loc.dir in store0 && cs >= FCB_SIZE
    {
      hide Slots;
    }

    /** The guarded part of a growing truncate: zero the gap, then write the entry. */
    method ZeroAndRecord(loc: Loc, fcb: Fcb, fcb': Fcb, newSize: u32, now: Stamp, ghost v0: Vol)
      returns (r: Result<Fcb>)
      requires Sound() && VolOk(v0) && v0.cs == cs && v0.max < |v0.fat| && Represents(cs, v0.store, view)
      requires Coherent(cs, view, ROOT) && EntryAt(view, loc, fcb) && fcb.IsFile() && Storable(fcb)
        && newSize > fcb.size
      requires ObjectAt(v0.store, fcb.start) == ObjectOf(view, fcb) && fcb' == fcb.(start := fcb'.start)
      requires ChainMade(v0, fcb.start, fcb.size, fcb'.start, newSize) && fcb'.start in layout.chains
      requires store == v0.store[fcb'.start := RoomFor(v0, fcb.start, fcb.size, newSize)]
      modifies `store, `view, device.inner
      ensures Sound() && store.Keys == old(store).Keys
      ensures forall s :: s in store && s != fcb'.start && s != loc.dir ==> store[s] == old(store)[s]
      ensures r.Success? ==>
        && Ready() && Coherent(cs, view, ROOT) && device.inner.faults == old(device.inner.faults)
        && Truncated(old(view), loc, fcb, newSize, now, r.value, view)
      ensures r.Failure? ==> r.error == DeviceFault && device.inner.faults + 1 == old(device.inner.faults)
      ensures r.Failure? ==> GrowTorn(old(store), store, loc, fcb'.start, fcb.size, newSize)
    {
      hide VolOk, Coherent, Represents, Cl, Md, Disk, Files, Updated, TruncateBytes, RoomFor, CanRecord, ZeroRange,
        ChainMade, ObjectAt, ObjectOf, SlotOnly, SameOutside, GrowTorn;
      DirIsObject(v0.store, loc);
      var after := fcb'.(size := newSize).Touch(now);
      ghost var room := GrowToRecord(v0, store, view, loc, fcb, after, newSize);
      assert store[fcb'.start := room] == store;
      ghost var store0 := store;
      var filled := ZeroFillChainRange(fcb'.start, fcb.size, newSize - fcb.size);
      ghost var store1 := store;
      if filled.Fail? {
        FillTorn(store0, store1, store1, loc, fcb'.start, fcb.size, newSize);
        return Failure(filled.error);
      }
      var put := PutFileEntry(loc, fcb, after, room, TruncateBytes(Files(view)[loc], newSize));
      if put.Fail? {
        FillTorn(store0, store1, store, loc, fcb'.start, fcb.size, newSize);
        return Failure(put.error);
      }
      return Success(after);
    }

    /**
     What a device fault while a file is extended to `size` leaves: the FAT of before; of the objects only bytes
     behind the end of the file and of the slot of its entry have changed.
     */
    ghost predicate GrowFaulted(v0: Vol, loc: Loc, fcb: Fcb, size: nat)
      reads `fat, `layout, `store
    {
      && fat == v0.fat && layout.chains == v0.l.chains
      && OnlyBytes(v0.store, store, fcb.start, fcb.size, size, loc.dir, SlotStart(loc), SlotStart(loc) + FCB_SIZE)
    }

    /** The growing branch of a truncate; a device fault after the extension is rolled back. */
    method GrowFile(loc: Loc, fcb: Fcb, newSize: u32, now: Stamp) returns (r: Result<Fcb>)
      requires Ready() && Coherent(cs, view, ROOT) && EntryAt(view, loc, fcb) && fcb.IsFile() && Storable(fcb)
      requires newSize > fcb.size
      modifies `fat, `fatDirty, `layout, `store, `view, device.inner
      ensures Sized()
      ensures r.Success? || !FaultedAgain() ==> Sound()
      ensures r.Failure? && !FaultedAgain() ==> GrowFaulted(old(V()), loc, fcb, newSize)
      ensures r.Failure? && r.error == DeviceFault ==> Faulted()
      ensures r.Failure? && r.error != DeviceFault ==>
        && Ready() && r.error == NoSpace && view == old(view) && fat == old(fat) && store == old(store)
        && layout == old(layout)
        && fatDirty == old(fatDirty) && Disk() == old(Disk()) && device.inner.faults == old(device.inner.faults)
      ensures (r.Failure? && r.error != DeviceFault) <==> Missing(fcb.size, newSize, cs) > old(FreeCount())
      ensures r.Success? ==>
        && Ready() && Coherent(cs, view, ROOT) && device.inner.faults == old(device.inner.faults)
        && Truncated(old(view), loc, fcb, newSize, now, r.value, view)
        && FreeCount() + Missing(fcb.size, newSize, cs) == old(FreeCount())
    {
      hide VolOk, Coherent, Represents, Cl, Md, Disk, FreeSet, ChainAt, ObjectAt, ObjectOf, Reached, RoomFor, DivCeil,
        Missing, ChainMade, Truncated, Restores, OnlyBytes, SlotOnly, SlotStart, SameOutside, GrowFaulted;
      var oldCount := DivCeil(fcb.size, cs);
      ghost var v0 := V();
      EntryFits(loc, fcb, ROOT);
      FcbChain(fcb);
      NoObjectZero(v0);
      NothingRewritten(store, fcb, newSize, loc);
      var grown, extra := MakeRoom(fcb, newSize);
      if grown.Failure? {
        GrowUndone(v0, loc, fcb, newSize);
        return Failure(grown.error);
      }
      var fcb' := grown.value;
      NoObjectZero(V());
      UndoReached(v0, fcb.start, fcb'.start, extra, V());
      ghost var v1 := V();
      r := ZeroAndRecord(loc, fcb, fcb', newSize, now, v0);
      if r.Failure? {
        SlotBytesOnly(v0.store, v1.store, store, loc);
        var trimmed := TakeBack(fcb'.start, oldCount, v0, fcb.start, extra, v1, fcb.size, newSize, loc.dir,
          SlotStart(loc), SlotStart(loc) + FCB_SIZE);
        if trimmed.Fail? {
          return Failure(trimmed.error);
        }
        GrowUndone(v0, loc, fcb, newSize);
      }
    }

    lemma GrowUndone(v0: Vol, loc: Loc, fcb: Fcb, size: nat)
      requires fat == v0.fat && layout.chains == v0.l.chains
      requires OnlyBytes(v0.store, store, fcb.start, fcb.size, size, loc.dir, SlotStart(loc), SlotStart(loc) + FCB_SIZE)
      ensures GrowFaulted(v0, loc, fcb, size)
    {
      hide OnlyBytes, SlotStart;
    }

    /** Where the bytes of a slot begin in the object of its directory. */
    ghost function SlotStart(loc: Loc): nat { if cs >= FCB_SIZE then SlotOffset(cs, loc.idx) else 0 }

    lemma NothingRewritten(store: Store, f: Fcb, size: nat, loc: Loc)
      ensures OnlyBytes(store, store, f.start, f.size, size, loc.dir, SlotStart(loc), SlotStart(loc) + FCB_SIZE)
    {
      hide SlotStart;
    }

    /** The directory has not changed when the chain was extended. */
    lemma SlotBytesOnly(store0: Store, store1: Store, store2: Store, loc: Loc)
      requires SlotOnly(store1, store2, loc) && loc.dir in store0 && store0[loc.dir] == store1[loc.dir]
      ensures SameOutside(ObjectAt(store0, loc.dir), ObjectAt(store2, loc.dir), SlotStart(loc), SlotStart(loc)
        + FCB_SIZE)
    {
      hide SlotOffset;
    }

    /**
     What a device fault while a file is cut to `size` leaves: either the chain ends where it should and what is
     behind is freed in part; or the chain is cut, and of the objects only the bytes behind the new end and the
     directory `d` have changed.
     */
    ghost predicate ShrinkFaulted(v0: Vol, fcb: Fcb, size: nat, d: nat)
      requires Sized()
      reads `fat, `fatDirty, `layout, `store, device.inner
    {
      var ch, keep := ChainAt(v0.l, fcb.start), if cs > 0 then DivCeil(size, cs) else 0;
      || TrimTorn(v0.fat, v0.cl, fat, Cl(), ch, keep)
      || (Sound() && fat == TrimmedFat(v0.fat, ch, keep) && FrontKept(v0.store, store, fcb.start, size, d))
    }

    /** Of object `start` the first `size` bytes are as they were, and all objects but it and `d`. */
    ghost predicate FrontKept(store0: Store, store1: Store, start: nat, size: nat, d: nat)
    {
      && (forall s :: s in store0 && s != start && s != d ==> s in store1 && store1[s] == store0[s])
      && size <= |ObjectAt(store0, start)| && size <= |ObjectAt(store1, start)|
      && ObjectAt(store1, start)[..size] == ObjectAt(store0, start)[..size]
    }

    lemma TrimFaulted(v0: Vol, fcb: Fcb, size: nat, d: nat)
      requires Sized() && cs > 0 && fcb.start in v0.l.chains
      requires TrimTorn(v0.fat, v0.cl, fat, Cl(), v0.l.chains[fcb.start], DivCeil(size, cs))
      ensures ShrinkFaulted(v0, fcb, size, d)
    {
      hide TrimTorn, DivCeil;
    }

    lemma ClearFaulted(v0: Vol, fcb: Fcb, size: nat, cut: Store, hi: nat)
      requires Sized() && Sound() && cs > 0 && fcb.start in v0.l.chains && fcb.start in v0.store
      requires fat == TrimmedFat(v0.fat, v0.l.chains[fcb.start], DivCeil(size, cs))
      requires fcb.start in cut && fcb.start in store && SameOutside(cut[fcb.start], store[fcb.start], size, hi)
      requires cut[fcb.start] <= v0.store[fcb.start] && size <= |cut[fcb.start]|
      requires forall s :: s in v0.store && s != fcb.start ==> s in store && store[s] == v0.store[s]
      ensures ShrinkFaulted(v0, fcb, size, 0)
    {
      hide TrimTorn, DivCeil, TrimmedFat, SameOutside, VolOk, Cl;
      SameFront(v0.store[fcb.start], cut[fcb.start], store[fcb.start], size, hi);
    }

    lemma ShrinkWider(v0: Vol, fcb: Fcb, size: nat, d: nat)
      requires Sized() && ShrinkFaulted(v0, fcb, size, 0)
      ensures 0 !in v0.store ==> ShrinkFaulted(v0, fcb, size, d)
    {
      hide TrimTorn, DivCeil, TrimmedFat, ObjectAt;
    }

    /** The bytes below the new end are as they were when the rest has been cut off and cleared. */
    lemma CutFront(store0: Store, store1: Store, fcb: Fcb, size: nat)
      requires cs > 0 && fcb.start in store0 && fcb.start != 0
      requires size > 0 ==> size <= Whole(size, cs) <= |store0[fcb.start]|
      requires store1 == if size == 0 then store0 - {fcb.start}
        else store0[fcb.start := Splice(store0[fcb.start][..Whole(size, cs)], size, Zeros(Whole(size, cs) - size))]
      ensures FrontKept(store0, store1, fcb.start, size, 0)
    {
      hide Whole;
    }

    lemma PutFaulted(v0: Vol, fcb: Fcb, size: nat, store1: Store, d: nat)
      requires Sized() && Sound() && cs > 0 && d != fcb.start && fcb.start != 0
      requires fat == TrimmedFat(v0.fat, ChainAt(v0.l, fcb.start), DivCeil(size, cs))
      requires FrontKept(v0.store, store1, fcb.start, size, 0) && 0 !in v0.store
      requires store.Keys == store1.Keys && forall s :: s in store && s != d ==> store[s] == store1[s]
      ensures ShrinkFaulted(v0, fcb, size, d)
    {
      hide TrimTorn, DivCeil, TrimmedFat;
    }

    /** Cuts the chain of a file and clears what is left behind the new end in its last cluster. */
    method CutFile(fcb: Fcb, newSize: u32) returns (r: Result<u16>)
      requires Sound() && FcbFits(fcb) && newSize < fcb.size
      modifies `fat, `fatDirty, `layout, `store, device.inner
      ensures Sized()
      ensures r.Failure? ==> r.error == DeviceFault && Faulted() && ShrinkFaulted(old(V()), fcb, newSize, 0)
      ensures fcb.start in old(store) && (newSize > 0 ==> newSize <= Whole(newSize, cs) <= |old(store)[fcb.start]|)
      ensures r.Success? ==>
        fat == TrimmedFat(old(fat), ChainAt(old(layout), fcb.start), DivCeil(newSize, cs))
      ensures r.Success? ==>
        && Sound() && Steady() && r.value == (if newSize == 0 then 0 else fcb.start)
        && store == (if newSize == 0 then old(store) - {fcb.start}
                     else old(store)[fcb.start := Splice(old(store)[fcb.start][..Whole(newSize, cs)], newSize,
                       Zeros(Whole(newSize, cs) - newSize))])
        && FreeCount() == old(FreeCount()) + Missing(newSize, fcb.size, cs)
    {
      hide VolOk, Cl, Md, Disk, FreeSet, TrimmedFat, Whole, Splice, DivCeil, Missing, TrimTorn, ShrinkFaulted,
        SameOutside;
      ghost var v0 := V();
      FcbChain(fcb);
      VolChain(v0, fcb.start);
      CutBytes(store[fcb.start], fcb.size, newSize, cs);
      var needed := DivCeil(newSize, cs);
      var start := fcb.start;
      var step := Pass;
      if needed == 0 {
        if fcb.start != 0 {
          step := TrimChainLen(fcb.start, 0);
          start := 0;
        }
      } else {
        step := TrimChainLen(fcb.start, needed);
      }
      if step.Fail? {
        TrimFaulted(v0, fcb, newSize, 0);
        return Failure(step.error);
      }
      TrimCount(v0, fcb.start, needed, V());
      if needed != 0 && newSize % cs != 0 {
        ghost var cut := store;
        step := WriteChainBytes(fcb.start, newSize, Zeros(cs - newSize % cs));
        if step.Fail? {
          ClearFaulted(v0, fcb, newSize, cut, newSize + (cs - newSize % cs));
          return Failure(step.error);
        }
        PutTwice(v0.store, fcb.start, cut[fcb.start], store[fcb.start]);
      }
      return Success(start);
    }

    /** The shrinking branch of a truncate. */
    method ShrinkFile(loc: Loc, fcb: Fcb, newSize: u32, now: Stamp) returns (r: Result<Fcb>)
      requires Ready() && Coherent(cs, view, ROOT) && EntryAt(view, loc, fcb) && fcb.IsFile() && Storable(fcb)
      requires newSize < fcb.size
      modifies `fat, `fatDirty, `layout, `store, `view, device.inner
      ensures Sized()
      ensures r.Failure? ==> r.error == DeviceFault && Faulted() && ShrinkFaulted(old(V()), fcb, newSize, loc.dir)
      ensures r.Success? ==>
        && Ready() && Coherent(cs, view, ROOT) && Steady()
        && Truncated(old(view), loc, fcb, newSize, now, r.value, view)
        && FreeCount() == old(FreeCount()) + Missing(newSize, fcb.size, cs)
    {
      hide VolOk, Coherent, Represents, Cl, Md, Disk, Files, Updated, TruncateBytes, CanRecord, FreeSet, Whole,
        Missing, FcbFits, ShrinkFaulted, FrontKept, TrimTorn;
      ghost var store0 := store;
      EntryFits(loc, fcb, ROOT);
      NoObjectZero(V());
      ghost var v0 := V();
      var cut := CutFile(fcb, newSize);
      if cut.Failure? {
        ShrinkWider(v0, fcb, newSize, loc.dir);
        return Failure(cut.error);
      }
      var start := cut.value;
      var fcb' := fcb.(start := start, size := newSize).Touch(now);
      ghost var bytes := ShrinkToRecord(cs, store0, store, view, loc, fcb, fcb', newSize);
      CutFront(store0, store, fcb, newSize);
      ghost var store1 := store;
      var step := PutFileEntry(loc, fcb, fcb', bytes, TruncateBytes(Files(view)[loc], newSize));
      if step.Fail? {
        PutFaulted(v0, fcb, newSize, store1, loc.dir);
        return Failure(step.error);
      }
      return Success(fcb');
    }

    // --- reading and writing files ------------------------------------------------------------------------

    /** The entry of a file; directories are refused. */
    method ReadFileFcb(loc: Loc) returns (r: Result<Fcb>)
      requires Ready() && Coherent(cs, view, ROOT) && loc.dir in view.dirs
      ensures r == FileEntry(view, loc)
      ensures r.Success? ==> EntryAt(view, loc, r.value) && r.value.IsFile() && Storable(r.value)
      ensures r.Success? <==> loc in Files(view)
    {
      hide Ready, Coherent, Files;
      FileEntryIff(cs, view, ROOT, loc);
      var fcb :- ReadFcbAt(loc);
      if fcb.IsDir() {
        return Failure(IsADirectory);
      }
      return Success(fcb);
    }

    method ReadAt(loc: Loc, offset: usize, len: usize) returns (r: Result<seq<byte>>)
      requires Intact() && loc.dir in view.dirs
      ensures FileEntry(view, loc).Failure? ==> r == Failure(FileEntry(view, loc).error)
      ensures FileEntry(view, loc).Success? ==> r == Success(ReadBytes(FileBytes(view, loc), offset, len))
      ensures r.Success? <==> loc in Files(view)
    {
      hide Ready, Coherent, Files, HandlesOk, Mountable;
      var fcb :- ReadFileFcb(loc);
      r := ReadFrom(loc, fcb, offset, len);
    }

    /** Part of a file's bytes, as reads through a handle and by location share it. */
    method ReadFrom(loc: Loc, fcb: Fcb, offset: nat, len: nat) returns (r: Result<seq<byte>>)
      requires Ready() && Coherent(cs, view, ROOT) && EntryAt(view, loc, fcb) && fcb.IsFile()
      ensures loc in Files(view) && r == Success(ReadBytes(FileBytes(view, loc), offset, len))
    {
      hide VolOk, Represents, Coherent, Files, Whole, ZeroFrom, ObjectOf;
      EntryFits(loc, fcb, ROOT);
      ObjectFacts(cs, view, ROOT, loc, fcb);
      ReadObject(ObjectOf(view, fcb), fcb.size, offset, len);
      var readLen := Min(len, if fcb.size > offset then fcb.size - offset else 0);
      if fcb.start == 0 || readLen == 0 {
        return Success([]);
      }
      r := ReadChainBytes(fcb.start, offset, readLen);
    }

    /** Tells the handle of a file, if there is one, about its new entry. */
    method UpdateHandles(loc: Loc, fcb: Fcb, clamp: bool)
      modifies `openFiles
      ensures openFiles == Retarget(old(openFiles), loc, fcb, clamp)
    {
      var i := 0;
      while i < |openFiles|
        invariant 0 <= i <= |openFiles| == |old(openFiles)|
        invariant forall k :: 0 <= k < i ==> openFiles[k] == RetargetOne(old(openFiles)[k], loc, fcb, clamp)
        invariant forall k :: i <= k < |openFiles| ==> openFiles[k] == old(openFiles)[k]
      {
        if openFiles[i].Some? && openFiles[i].value.loc == loc {
          var open := openFiles[i].value;
          openFiles := openFiles[i := Some(open.(fcb := fcb))];
          if clamp {
            openFiles := openFiles[i := Some(OpenFile(loc, Min(open.cursor, fcb.size), fcb))];
          }
        }
        i := i + 1;
      }
    }

    method WriteAt(loc: Loc, offset: usize, data: seq<byte>, now: Stamp) returns (r: Result<nat>)
      requires Intact() && loc.dir in view.dirs
      modifies this, device.inner
      ensures Sized() && (Steady() || Faulted()) && (Steady() ==> Intact())
      ensures Faulted() ==> r == Failure(DeviceFault) && openFiles == old(openFiles)
      ensures FaultedOnce() ==>
        FileEntry(old(view), loc).Success? && Sound()
        && WriteFaulted(old(V()), loc, FileEntry(old(view), loc).value, offset, data)
      ensures Steady() && r.Failure? ==>
        view == old(view) && fat == old(fat) && openFiles == old(openFiles) && Disk() == old(Disk())
      ensures FileEntry(old(view), loc).Failure? ==> Steady() && r == Failure(FileEntry(old(view), loc).error)
      ensures FileEntry(old(view), loc).Success? && offset + |data| >= USIZE_LIMIT ==>
        Steady() && r == Failure(SeekOutOfBounds(offset))
      ensures Steady() && FileEntry(old(view), loc).Success? && offset + |data| < USIZE_LIMIT ==>
        if Missing(|FileBytes(old(view), loc)|, offset + |data|, cs) > old(FreeCount()) then r == Failure(NoSpace)
        else
          && r == Success(|data|)
          && FileWritten(old(view), old(openFiles), loc, offset, data, now, view, openFiles)
          && FreeCount() + Missing(|FileBytes(old(view), loc)|, offset + |data|, cs) == old(FreeCount())
    {
      hide Ready, Coherent, Files, HandlesOk, Mountable, Updated, Missing, WriteFaulted;
      ReadyIsSized();
      var fcb :- ReadFileFcb(loc);
      ghost var v := view;
      ObjectFacts(cs, v, ROOT, loc, fcb);
      var written :- WriteData(loc, fcb, offset, data, now);
      UpdateHandles(loc, written.0, false);
      UpdatedEntry(cs, v, loc, fcb, written.0, WriteBytes(Files(v)[loc], offset, data), view);
      RetargetOk(v, view, old(openFiles), loc, fcb, written.0, false);
      return Success(|data|);
    }

    method Truncate(loc: Loc, newSize: usize, now: Stamp) returns (r: Outcome)
      requires Intact() && loc.dir in view.dirs
      modifies this, device.inner
      ensures Sized() && (Steady() || Faulted()) && (Steady() ==> Intact())
      ensures Faulted() ==> r == Fail(DeviceFault) && openFiles == old(openFiles)
      ensures FaultedOnce() ==>
        && FileEntry(old(view), loc).Success? && newSize != FileEntry(old(view), loc).value.size
        && (newSize > FileEntry(old(view), loc).value.size ==>
              Sound() && GrowFaulted(old(V()), loc, FileEntry(old(view), loc).value, newSize))
      ensures Faulted() && FileEntry(old(view), loc).Success? && newSize < FileEntry(old(view), loc).value.size ==>
        ShrinkFaulted(old(V()), FileEntry(old(view), loc).value, newSize, loc.dir)
      ensures Steady() && (r.Fail? || newSize == |FileBytes(old(view), loc)|) ==>
        view == old(view) && fat == old(fat) && openFiles == old(openFiles) && Disk() == old(Disk())
      ensures FileEntry(old(view), loc).Failure? ==> Steady() && r == Fail(FileEntry(old(view), loc).error)
      ensures Steady() && FileEntry(old(view), loc).Success? ==>
        if newSize >= U32_LIMIT || Missing(|FileBytes(old(view), loc)|, newSize, cs) > old(FreeCount()) then
          r == Fail(NoSpace)
        else
          && r == Pass
          && (newSize != |FileBytes(old(view), loc)| ==>
                FileTruncated(old(view), old(openFiles), loc, newSize, now, view, openFiles))
          && FreeCount() + Missing(|FileBytes(old(view), loc)|, newSize, cs)
             == old(FreeCount()) + Missing(newSize, |FileBytes(old(view), loc)|, cs)
    {
      hide Ready, Coherent, Files, HandlesOk, Mountable, Updated, Missing, GrowFaulted, ShrinkFaulted;
      ReadyIsSized();
      var found := ReadFileFcb(loc);
      if found.Failure? {
        return Fail(found.error);
      }
      var fcb := found.value;
      ObjectFacts(cs, view, ROOT, loc, fcb);
      MissingNone(fcb.size, newSize, cs);
      if newSize >= U32_LIMIT {
        return Fail(NoSpace);
      }
      if newSize == fcb.size {
        return Pass;
      }
      ghost var v := view;
      var changed;
      if newSize > fcb.size {
        changed := GrowFile(loc, fcb, newSize, now);
        if changed.Failure? {
          return Fail(changed.error);
        }
        UpdateHandles(loc, changed.value, false);
      } else {
        changed := ShrinkFile(loc, fcb, newSize, now);
        if changed.Failure? {
          return Fail(changed.error);
        }
        UpdateHandles(loc, changed.value, true);
      }
      UpdatedEntry(cs, v, loc, fcb, changed.value, TruncateBytes(Files(v)[loc], newSize), view);
      RetargetOk(v, view, old(openFiles), loc, fcb, changed.value, newSize < fcb.size);
      return Pass;
    }

    /** Sets the modification time of any entry. */
    method SetMtime(loc: Loc, mtime: Stamp) returns (r: Outcome)
      requires Intact() && loc.dir in view.dirs
      modifies this, device.inner
      ensures Sized() && (Steady() || Faulted()) && (Steady() ==> Intact()) && fat == old(fat)
      ensures Faulted() ==> r == Fail(DeviceFault) && openFiles == old(openFiles)
      ensures Faulted() ==> Sound() && SlotTorn(old(store), store, loc)
      ensures Steady() ==> (r.Pass? <==> IsEntry(old(view), loc))
      ensures Steady() && r.Fail? ==> view == old(view) && openFiles == old(openFiles) && Disk() == old(Disk())
      ensures Steady() && r.Fail? ==>
        r.error == if HasSlot(old(view), loc) then NotFoundAt(loc) else CorruptFs(BeyondChain)
      ensures r.Pass? ==> Touched(old(view), old(openFiles), loc, mtime, view, openFiles)
      ensures r.Pass? && IsEntry(old(view), loc) ==>
        var f' := old(view).dirs[loc.dir][loc.idx].fcb.(mtime := mtime.mtime, mdate := mtime.mdate);
        && EntryAt(view, loc, f') && |openFiles| == |old(openFiles)|
        && forall h :: 0 <= h < |openFiles| ==> openFiles[h] == var o := old(openFiles)[h];
          if o.Some? && o.value.loc == loc then Some(o.value.(fcb := f')) else o
    {
      hide Ready, Coherent, Files, HandlesOk, Mountable, Touched, PutSlot, Retarget, Sound, Fits, SlotOnly;
      ReadyIsSized();
      var found := ReadFcbAt(loc);
      if found.Failure? {
        return Fail(found.error);
      }
      ghost var v := view;
      var fcb := found.value.Touch(mtime);
      NoBlobZero();
      TouchedOk(cs, v, openFiles, loc, found.value, mtime);
      r := WriteFcbAt(loc, fcb);
      SoundIsSized();
      if r.Fail? {
        return;
      }
      UpdateHandles(loc, fcb, false);
      RetargetIs(old(openFiles), loc, fcb, false);
      TouchedIs(v, old(openFiles), loc, mtime, view, openFiles);
    }

    lemma NoBlobZero()
      requires Ready()
      ensures 0 !in view.blobs
    {
      hide VolOk, Slots;
      NoObjectZero(V());
    }

    // --- handles ----------------------------------------------------------------------------------------

    method GetOpenFile(handle: nat) returns (r: Result<OpenFile>)
      ensures r == HandleAt(openFiles, handle)
    {
      if handle < |openFiles| && openFiles[handle].Some? {
        return Success(openFiles[handle].value);
      }
      return Failure(InvalidHandle(handle));
    }

    /** The handle of a file, if it is open. */
    method FindOpenHandle(loc: Loc) returns (r: Option<nat>)
      ensures r.Some? ==> r.value < |openFiles| && openFiles[r.value].Some? && openFiles[r.value].value.loc == loc
      ensures r.None? <==> !IsOpen(openFiles, loc)
    {
      var slot := 0;
      while slot < |openFiles|
        invariant 0 <= slot <= |openFiles|
        invariant forall h :: 0 <= h < slot && openFiles[h].Some? ==> openFiles[h].value.loc != loc
      {
        if openFiles[slot].Some? && openFiles[slot].value.loc == loc {
          return Some(slot);
        }
        slot := slot + 1;
      }
      return None;
    }

    /** Opens a file that is not open yet, in the first free of ten slots. */
    method Open(loc: Loc) returns (r: Result<nat>)
      requires Intact() && loc.dir in view.dirs
      modifies `openFiles
      ensures Intact()
      ensures r.Failure? ==> openFiles == old(openFiles)
      ensures FileEntry(view, loc).Failure? ==> r == Failure(FileEntry(view, loc).error)
      ensures FileEntry(view, loc).Success? ==>
        if IsOpen(old(openFiles), loc) then r == Failure(AlreadyOpen(loc))
        else if FirstClosed(old(openFiles), 0).None? then r == Failure(TooManyOpenFiles)
        else
          && r == Success(FirstClosed(old(openFiles), 0).value)
          && openFiles == old(openFiles)[r.value := Some(OpenFile(loc, 0, FileEntry(view, loc).value))]
      ensures |openFiles| == 10
      ensures r == Failure(TooManyOpenFiles) <==>
        && FileEntry(view, loc).Success? && !IsOpen(old(openFiles), loc)
        && forall h :: 0 <= h < 10 ==> old(openFiles)[h].Some?
    {
      hide Ready, Coherent, Files, Mountable;
      var fcb :- ReadFileFcb(loc);
      var handle := FindOpenHandle(loc);
      if handle.Some? {
        return Failure(AlreadyOpen(loc));
      }
      var slot := 0;
      while slot < |openFiles| && openFiles[slot].Some?
        invariant 0 <= slot <= |openFiles| && FirstClosed(openFiles, 0) == FirstClosed(openFiles, slot)
      {
        slot := slot + 1;
      }
      if slot == |openFiles| {
        return Failure(TooManyOpenFiles);
      }
      openFiles := openFiles[slot := Some(OpenFile(loc, 0, fcb))];
      return Success(slot);
    }

    method CloseHandle(handle: nat) returns (r: Outcome)
      requires Intact()
      modifies `openFiles
      ensures Intact()
      ensures HandleAt(old(openFiles), handle).Failure? ==>
        r == Fail(InvalidHandle(handle)) && openFiles == old(openFiles)
      ensures HandleAt(old(openFiles), handle).Success? ==> r == Pass && openFiles == old(openFiles)[handle := None]
    {
      hide Ready, Coherent, Files, Mountable;
      var file := GetOpenFile(handle);
      if file.Failure? {
        return Fail(file.error);
      }
      openFiles := openFiles[handle := None];
      return Pass;
    }

    /** Moves the cursor, but not behind the end of the file. */
    method SeekHandle(handle: nat, pos: usize) returns (r: Outcome)
      requires Intact()
      modifies `openFiles
      ensures Intact()
      ensures r.Fail? ==> openFiles == old(openFiles)
      ensures HandleAt(old(openFiles), handle).Failure? ==> r == Fail(InvalidHandle(handle))
      ensures HandleAt(old(openFiles), handle).Success? ==>
        var o := old(openFiles)[handle].value;
        if pos > |FileBytes(view, o.loc)| then r == Fail(SeekOutOfBounds(pos))
        else r == Pass && openFiles == old(openFiles)[handle := Some(o.(cursor := pos))]
    {
      hide Ready, Coherent, Files, HandlesOk, Mountable;
      var file := GetOpenFile(handle);
      if file.Failure? {
        return Fail(file.error);
      }
      HandleFacts(view, openFiles, handle);
      ObjectFacts(cs, view, ROOT, file.value.loc, file.value.fcb);
      if pos > file.value.fcb.size {
        return Fail(SeekOutOfBounds(pos));
      }
      HandleMoved(view, view, openFiles, handle, file.value.fcb, pos);
      openFiles := openFiles[handle := Some(file.value.(cursor := pos))];
      return Pass;
    }

    /** Reads from the cursor on and moves it behind what was read. */
    method ReadHandle(handle: nat, len: usize) returns (r: Result<seq<byte>>)
      requires Intact()
      modifies `openFiles
      ensures Intact()
      ensures HandleAt(old(openFiles), handle).Failure? ==>
        r == Failure(InvalidHandle(handle)) && openFiles == old(openFiles)
      ensures HandleAt(old(openFiles), handle).Success? ==>
        var o := old(openFiles)[handle].value;
        && r == Success(ReadBytes(FileBytes(view, o.loc), o.cursor, len))
        && openFiles == old(openFiles)[handle := Some(o.(cursor := o.cursor + |r.value|))]
    {
      hide Ready, Coherent, Files, HandlesOk, Mountable;
      var file :- GetOpenFile(handle);
      HandleFacts(view, openFiles, handle);
      ObjectFacts(cs, view, ROOT, file.loc, file.fcb);
      r := ReadFrom(file.loc, file.fcb, file.cursor, len);
      HandleMoved(view, view, openFiles, handle, file.fcb, file.cursor + |r.value|);
      openFiles := openFiles[handle := Some(file.(cursor := file.cursor + |r.value|))];
    }

    /** Writes at the cursor and moves it behind what was written. */
    method WriteHandle(handle: nat, data: seq<byte>, now: Stamp) returns (r: Result<nat>)
      requires Intact()
      modifies this, device.inner
      ensures Sized() && (Steady() || Faulted()) && (Steady() ==> Intact())
      ensures Faulted() ==> r == Failure(DeviceFault) && openFiles == old(openFiles)
      ensures FaultedOnce() ==>
        && HandleAt(old(openFiles), handle).Success? && Sound()
        && var o := old(openFiles)[handle].value; WriteFaulted(old(V()), o.loc, o.fcb, o.cursor, data)
      ensures Steady() && r.Failure? ==>
        view == old(view) && fat == old(fat) && openFiles == old(openFiles) && Disk() == old(Disk())
      ensures HandleAt(old(openFiles), handle).Failure? ==> Steady() && r == Failure(InvalidHandle(handle))
      ensures Steady() && HandleAt(old(openFiles), handle).Success? ==>
        var o := old(openFiles)[handle].value;
        var end, size := o.cursor + |data|, |FileBytes(old(view), o.loc)|;
        if end >= USIZE_LIMIT then r == Failure(SeekOutOfBounds(o.cursor))
        else if Missing(size, end, cs) > old(FreeCount()) then r == Failure(NoSpace)
        else
          && r == Success(|data|)
          && HandleWritten(old(view), old(openFiles), handle, data, now, view, openFiles)
          && FreeCount() + Missing(size, end, cs) == old(FreeCount())
    {
      hide Ready, Coherent, Files, HandlesOk, Mountable, Updated, Missing, WriteFaulted;
      ReadyIsSized();
      var file :- GetOpenFile(handle);
      HandleFacts(view, openFiles, handle);
      var fcb := ReadFcbAt(file.loc);
      ghost var v := view;
      ObjectFacts(cs, v, ROOT, file.loc, file.fcb);
      var written :- WriteData(file.loc, fcb.value, file.cursor, data, now);
      openFiles := openFiles[handle := Some(file.(cursor := written.1, fcb := written.0))];
      UpdatedEntry(cs, v, file.loc, file.fcb, written.0, WriteBytes(Files(v)[file.loc], file.cursor, data), view);
      HandleMoved(v, view, old(openFiles), handle, written.0, written.1);
      return Success(|data|);
    }

    method TruncateHandle(handle: nat, newSize: usize, now: Stamp) returns (r: Outcome)
      requires Intact()
      modifies this, device.inner
      ensures Sized() && (Steady() || Faulted()) && (Steady() ==> Intact())
      ensures Faulted() ==> r == Fail(DeviceFault) && openFiles == old(openFiles)
      ensures FaultedOnce() ==>
        && HandleAt(old(openFiles), handle).Success?
        && var o := old(openFiles)[handle].value;
          newSize > o.fcb.size ==> Sound() && GrowFaulted(old(V()), o.loc, o.fcb, newSize)
      ensures Faulted() ==>
        && HandleAt(old(openFiles), handle).Success?
        && var o := old(openFiles)[handle].value;
          newSize < o.fcb.size ==> ShrinkFaulted(old(V()), o.fcb, newSize, o.loc.dir)
      ensures HandleAt(old(openFiles), handle).Failure? ==>
        Steady() && r == Fail(InvalidHandle(handle)) && view == old(view) && fat == old(fat)
          && openFiles == old(openFiles)
          && Disk() == old(Disk())
      ensures Steady() && HandleAt(old(openFiles), handle).Success? ==>
        var loc := old(openFiles)[handle].value.loc;
        var size := |FileBytes(old(view), loc)|;
        if newSize >= U32_LIMIT || Missing(size, newSize, cs) > old(FreeCount()) then
          r == Fail(NoSpace) && view == old(view) && fat == old(fat) && openFiles == old(openFiles)
            && Disk() == old(Disk())
        else
          && r == Pass
          && (if newSize == size then view == old(view) && fat == old(fat) && openFiles == old(openFiles)
              else FileTruncated(old(view), old(openFiles), loc, newSize, now, view, openFiles))
          && FreeCount() + Missing(size, newSize, cs) == old(FreeCount()) + Missing(newSize, size, cs)
    {
      hide Ready, Coherent, Files, HandlesOk, Mountable, Updated, Missing, FileBytes, GrowFaulted, ShrinkFaulted;
      ReadyIsSized();
      var file := GetOpenFile(handle);
      if file.Failure? {
        return Fail(file.error);
      }
      HandleFacts(view, openFiles, handle);
      r := Truncate(file.value.loc, newSize, now);
    }

    // --- entries ----------------------------------------------------------------------------------------

    /** The end of creating an entry: write it into its slot and refresh the directory. */
    method RecordEntry(loc: Loc, fcb: Fcb, later: Stamp) returns (r: Outcome)
      requires Ready() && Coherent(cs, view, ROOT) && HandlesOk(view, openFiles)
      requires HasSlot(view, loc) && !IsEntry(view, loc) && Storable(fcb) && fcb.size == 0
      requires fcb.IsFile() ==> fcb.start == 0
      requires fcb.IsFile() || (fcb.IsDir() && IsNewDir(view, cs, fcb.start))
      modifies `store, `view, device.inner
      ensures Sized() && (r.Fail? ==> r.error == DeviceFault && Faulted())
      ensures r.Fail? ==> Sound() && DirsOnly(old(view), old(store), store, fcb.start)
      ensures r.Pass? ==>
        && Ready() && Coherent(cs, view, ROOT) && HandlesOk(view, openFiles) && Steady()
        && Added(old(view), loc, fcb, later, view)
        && Lost(view) == Lost(old(view)) - (if fcb.IsDir() then {fcb.start} else {})
        && SlotCounts(view) ==
          (if fcb.IsDir() then SlotCounts(old(view))[fcb.start as nat := PerCluster(cs)] else SlotCounts(old(view)))
    {
      hide Sound, Represents, Coherent, HandlesOk, Files, AddEntry, PutSlot, NoSlots, Count, PerCluster, IsNewDir,
        Added, DirBytes, Lost, SlotCounts, SlotOnly, DirsOnly;
      ghost var v := view;
      if fcb.IsDir() { NewDirFacts(v, cs, fcb.start); }
      AddEntryOk(cs, v, loc, fcb, PerCluster(cs));
      ghost var store0 := store;
      r := WriteFcbAt(loc, fcb);
      SoundIsSized();
      ghost var store1 := store;
      DirsOnlyFirst(v, store0, store1, fcb.start, loc.dir);
      if r.Fail? {
        return;
      }
      EntryRecorded(v, loc, fcb);
      view := AddEntry(v, loc, fcb, NoSlots(PerCluster(cs)));
      AddEntryDirs(v, loc, fcb, PerCluster(cs));
      DirBytesFit(loc.dir);
      DirBytesAt(view, loc.dir);
      AddedOk(cs, v, loc, fcb, PerCluster(cs), later);
      AddEntryLost(v, loc, fcb, PerCluster(cs), later);
      AddEntryCounts(v, loc, fcb, PerCluster(cs));
      RefreshedCounts(view, loc.dir, later);
      ghost var v1 := view;
      r := RefreshDirSize(loc.dir, later);
      SoundIsSized();
      if r.Fail? {
        DirsOnlyAdded(v, v1, loc, fcb, PerCluster(cs), store0, store1, store, v1.refs[loc.dir].dir);
        return;
      }
      AddedHandles(v, view, openFiles, loc, fcb, later);
    }

    lemma DirsOnlyFirst(v0: View, store0: Store, store1: Store, start: nat, d: nat)
      requires store1.Keys == store0.Keys && d in v0.dirs && forall s :: s in store1 && s != d ==>
        store1[s] == store0[s]
      ensures DirsOnly(v0, store0, store1, start)
    {
    }

    lemma DirsOnlyAdded(v0: View, v1: View, loc: Loc, fcb: Fcb, n: nat, store0: Store, store1: Store, store2: Store,
      d: nat)
      requires HasSlot(v0, loc) && v1 == AddEntry(v0, loc, fcb, NoSlots(n)) && d in v1.dirs
      requires DirsOnly(v0, store0, store1, fcb.start) && store2.Keys == store1.Keys
      requires forall s :: s in store2 && s != d ==> store2[s] == store1[s]
      ensures DirsOnly(v0, store0, store2, fcb.start)
    {
    }

    lemma NewDirsOnly(v: View, store0: Store, store1: Store, c: nat)
      requires c !in store0 && store1 == store0[c := Zeros(cs)]
      ensures DirsOnly(v, store0, store1, 0)
    {
    }

    lemma SameDirsOnly(v: View, store: Store)
      ensures DirsOnly(v, store, store, 0)
    {
    }

    lemma DirsOnlyTrans(v0: View, v1: View, store0: Store, store1: Store, store2: Store, start: nat)
      requires DirsOnly(v0, store0, store1, 0) && DirsOnly(v1, store1, store2, start)
      requires v1.dirs.Keys == v0.dirs.Keys && start !in store0
      ensures DirsOnly(v0, store0, store2, 0)
    {
    }

    lemma EntryRecorded(v: View, loc: Loc, fcb: Fcb)
      requires Ready() && HasSlot(v, loc) && view == PutSlot(v, loc, Occupied(fcb))
      requires fcb.IsDir() ==> IsNewDir(v, cs, fcb.start)
      ensures Sound() && Represents(cs, store, AddEntry(v, loc, fcb, NoSlots(PerCluster(cs))))
    {
      hide VolOk, Represents, Zeros;
      AddRepresents(cs, store, v, loc, fcb);
    }

    lemma ExtendedDirsOnly(v0: Vol, view0: View, dir: nat, v: Vol)
      requires dir in view0.dirs && v0.max < |v0.fat|
      requires Extended(v0, dir, dir, LowestFree(v0.fat, ROOT, v0.max, 1), v)
      ensures DirsOnly(view0, v0.store, v.store, 0)
    {
      hide LowestFree;
    }

    /** `FillFreeDirSlot`, seen from the tree: what is there stays, and the slot it finds holds no entry. */
    method ClaimSlot(dir: nat) returns (r: Result<Loc>)
      requires Ready() && Coherent(cs, view, ROOT) && HandlesOk(view, openFiles) && dir in view.dirs
      modifies `fat, `fatDirty, `layout, `store, `view, device.inner
      ensures Ready() && Coherent(cs, view, ROOT) && HandlesOk(view, openFiles)
      ensures Sized() && (Steady() || Faulted()) && (Faulted() ==> r == Failure(DeviceFault))
      ensures Sound() && DirsOnly(old(view), old(store), store, 0) && view.dirs.Keys == old(view.dirs.Keys)
      ensures Steady() ==> (r.Failure? <==> !SlotIsFree(old(view), dir) && old(FreeCount()) == 0)
      ensures Steady() && r.Failure? ==>
        r.error == NoSpace && view == old(view) && fat == old(fat) && Disk() == old(Disk())
      ensures r.Success? ==>
        && Steady() && r.value == SlotFor(old(view), dir) && HasSlot(view, r.value) && !IsEntry(view, r.value)
        && SameEntries(old(view), view) && view.blobs == old(view).blobs && view.refs == old(view).refs
        && SlotCounts(view) == RoomCounts(old(view), dir, PerCluster(cs))
        && FreeCount() + (if SlotIsFree(old(view), dir) then 0 else 1) == old(FreeCount())
    {
      hide VolOk, Represents, Coherent, HandlesOk, Files, Cl, Md, Disk, FreeSet, FindFree, Extended, NoSlots,
        SameEntries, PerCluster, SlotCounts;
      ghost var v, v0 := view, V();
      DirObject(dir);
      r := FillFreeDirSlot(dir);
      if r.Success? {
        if FindFree(v.dirs[dir], 0).None? {
          ExtendedCount(v0, dir, V());
          ExtendOk(cs, v, ROOT, dir, PerCluster(cs));
          ExtendShows(cs, v, dir, PerCluster(cs));
          ExtendCounts(v, dir, PerCluster(cs));
          ExtendHandles(v, dir, PerCluster(cs), openFiles);
          ExtendedDirsOnly(v0, v, dir, V());
        } else {
          SameEntriesRefl(v);
        }
      }
    }

    method CreateFile(parent: nat, name: Str, now: Stamp, later: Stamp) returns (r: Result<Loc>)
      requires Intact() && parent in view.dirs
      modifies this, device.inner
      ensures Sized() && (Steady() || Faulted()) && (Steady() ==> Intact()) && openFiles == old(openFiles)
      ensures Faulted() ==> r == Failure(DeviceFault)
      ensures Faulted() ==> Sound() && DirsOnly(old(view), old(store), store, 0)
      ensures Steady() && r.Failure? ==> view == old(view) && fat == old(fat) && Disk() == old(Disk())
      ensures match CreateCheck(old(view), parent, name)
        case Fail(err) => Steady() && r == Failure(err)
        case Pass => Steady() ==>
          if SlotIsFree(old(view), parent) || old(FreeCount()) > 0 then
            && r == Success(SlotFor(old(view), parent))
            && Added(old(view), r.value, NewFcb(StoredName(name), File, 0, now), later, view)
            && Lost(view) == Lost(old(view))
            && SlotCounts(view) == RoomCounts(old(view), parent, PerCluster(cs))
            && FreeCount() + (if SlotIsFree(old(view), parent) then 0 else 1) == old(FreeCount())
          else r == Failure(NoSpace)
      ensures r.Success? ==>
        && EntryAt(view, r.value, Fcb(StoredName(name), 32, 0, now.mtime, now.mdate, 0, 0))
        && ParentDated(old(view), parent, later, view)
    {
      hide Ready, Coherent, HandlesOk, Files, Mountable, Normalize, TryFrom, FindName, FindFree, Added, Lost,
        SlotCounts, Sound, PerCluster, DirsOnly, ParentDated;
      ReadyIsSized();
      NormalizeError(name);
      var key :- Normalize(name);
      NormalizeTwice(name);
      StoredNameIsNoMark(name);
      var found := Lookup(parent, key);
      if found.Success? {
        return Failure(InvalidPath);
      }
      ghost var v, store0 := view, store;
      ZeroIsNoObject();
      var loc :- ClaimSlot(parent);
      var shortName := TryFrom(key);
      var fcb := NewFcb(shortName.value, File, 0, now);
      ghost var v1, store1 := view, store;
      SameLost(v, v1);
      var step := RecordEntry(loc, fcb, later);
      if step.Fail? {
        DirsOnlyTrans(v, v1, store0, store1, store, 0);
        return Failure(step.error);
      }
      AddedSince(v, v1, loc, fcb, later, view);
      AddedDates(cs, v, loc, fcb, later, view);
      AddedIs(v, loc, fcb, later, view);
      return Success(loc);
    }

    lemma ZeroIsNoObject()
      requires Ready()
      ensures 0 !in store
    {
      hide VolOk;
      NoObjectZero(V());
    }

    /** A zeroed cluster for a new directory: for now an object that nobody names. */
    method ClaimCluster() returns (r: Result<u16>)
      requires Ready() && Coherent(cs, view, ROOT) && HandlesOk(view, openFiles)
      modifies `fat, `fatDirty, `layout, `store, `view, device.inner
      ensures Sized() && (Steady() || Faulted()) && (Faulted() ==> r == Failure(DeviceFault))
      ensures Steady() ==> Ready() && Coherent(cs, view, ROOT) && HandlesOk(view, openFiles)
      ensures Sound() && DirsOnly(old(view), old(store), store, 0) && (r.Success? ==> r.value !in old(store))
      ensures Steady() ==> (r.Failure? <==> old(FreeCount()) == 0)
      ensures Steady() && r.Failure? ==>
        r.error == NoSpace && view == old(view) && fat == old(fat) && Disk() == old(Disk())
      ensures r.Success? ==>
        && Steady() && r.value == FirstFit(old(fat), max) && IsNewDir(view, cs, r.value)
        && view == Leaked(old(view), r.value, cs) && SameEntries(old(view), view)
        && Lost(view) == Lost(old(view)) + {r.value} && r.value !in Lost(old(view))
        && FreeCount() + 1 == old(FreeCount())
    {
      hide VolOk, Represents, Coherent, HandlesOk, Files, Cl, Md, Disk, FreeSet, SameEntries, MarkAll, AllocAll,
        ZeroAll, LowestFree, Lost, DirsOnly;
      ghost var v, v0 := view, V();
      LowestFreeCount(fat, max, 1);
      SameDirsOnly(v, store);
      var added := AllocateClusters(1);
      if added.Failure? {
        return Failure(added.error);
      }
      var c := added.value[0];
      ClaimedCluster(v0, v, c);
      view := Leaked(v, c, cs);
      HandlesKept(v, view, openFiles);
      return Success(c);
    }

    lemma ClaimedCluster(v0: Vol, v: View, c: nat)
      requires VolOk(v0) && v0.cs == cs && v0.max == max < |v0.fat| && Represents(cs, v0.store, v)
        && Coherent(cs, v, ROOT)
      requires Sound() && LowestFree(v0.fat, ROOT, max, 1) == [c]
      requires fat == MarkAll(v0.fat, [c]) && store == ZeroAll(v0.store, [c], cs)
      ensures Represents(cs, store, Leaked(v, c, cs)) && Coherent(cs, Leaked(v, c, cs), ROOT)
      ensures IsNewDir(Leaked(v, c, cs), cs, c) && SameEntries(v, Leaked(v, c, cs)) && c < 0xFFFF && c !in v.blobs
      ensures Lost(Leaked(v, c, cs)) == Lost(v) + {c} && c !in Lost(v)
      ensures c !in v0.store && DirsOnly(v, v0.store, store, 0)
      ensures |FreeSet(fat, max)| + 1 == |FreeSet(v0.fat, max)|
    {
      hide VolOk, Represents, Coherent, SameEntries, LowestFree, Zeros, Cl, Md, DirsOnly;
      AllocatedAreFresh(v0, [c]);
      NoObjectZero(v0);
      LowestFreeMeaning(v0.fat, ROOT, max, 1);
      assert [c][0] == c && [c][..0] == [];
      MarkAllEntries(v0.fat, [c]);
      assert FreeSet(v0.fat, max) == FreeSet(fat, max) + {c} && c !in FreeSet(fat, max);
      assert store == v0.store[c := Zeros(cs)];
      UnusedName(cs, v0.store, v, ROOT, c);
      UnusedBlob(cs, v0.store, v, c);
      BlobPut(cs, v0.store, v, c, Zeros(cs));
      NewBlobOk(cs, v, ROOT, c, Zeros(cs));
      BlobShows(cs, v, c, Zeros(cs));
      LeakedLost(v, c, cs);
      NewDirsOnly(v, v0.store, store, c);
    }

    /**
     Makes a directory. The cluster is claimed before the slot: when that takes the last free cluster and
     the parent has no free slot, the call fails and leaves the cluster behind, named by no entry.
     */
    method Mkdir(parent: nat, name: Str, now: Stamp, later: Stamp) returns (r: Result<Loc>)
      requires Intact() && parent in view.dirs
      modifies this, device.inner
      ensures Sized() && (Steady() || Faulted()) && (Steady() ==> Intact()) && openFiles == old(openFiles)
      ensures Faulted() ==> r == Failure(DeviceFault)
      ensures Faulted() ==> Sound() && DirsOnly(old(view), old(store), store, 0)
      ensures match CreateCheck(old(view), parent, name)
        case Fail(err) => Steady() && r == Failure(err) && view == old(view) && fat == old(fat) && Disk() == old(Disk())
        case Pass => Steady() ==>
          if old(FreeCount()) == 0 then
            r == Failure(NoSpace) && view == old(view) && fat == old(fat) && Disk() == old(Disk())
          else if !SlotIsFree(old(view), parent) && old(FreeCount()) == 1 then
            && r == Failure(NoSpace)
            && view == Leaked(old(view), FirstFit(old(fat), max), cs) && SameEntries(old(view), view)
              && FreeCount() == 0
            && Lost(view) == Lost(old(view)) + {FirstFit(old(fat), max)} && FirstFit(old(fat), max) !in Lost(old(view))
          else
            && r == Success(SlotFor(old(view), parent))
            && MadeDir(old(view), r.value, name, FirstFit(old(fat), max), now, later, view)
            && Lost(view) == Lost(old(view))
            && SlotCounts(view) ==
              RoomCounts(old(view), parent, PerCluster(cs))[FirstFit(old(fat), max) := PerCluster(cs)]
            && FreeCount() + (if SlotIsFree(old(view), parent) then 1 else 2) == old(FreeCount())
            && FirstFit(old(fat), max) < 0x1_0000
            && EntryAt(view, r.value,
                 Fcb(StoredName(name), 16, 0, now.mtime, now.mdate, FirstFit(old(fat), max), 0))
      ensures r.Success? ==> ParentDated(old(view), parent, later, view)
    {
      hide Ready, Coherent, HandlesOk, Files, Mountable, Normalize, TryFrom, FindName, FindFree, Added, IsNewDir,
        SameEntries, LowestFree, Lost, SlotCounts, RoomCounts, Sound, PerCluster, DirsOnly, ParentDated;
      ReadyIsSized();
      NormalizeError(name);
      var key :- Normalize(name);
      NormalizeTwice(name);
      StoredNameIsNoMark(name);
      var found := Lookup(parent, key);
      if found.Success? {
        return Failure(InvalidPath);
      }
      ghost var v, store0 := view, store;
      ZeroIsNoObject();
      var cluster :- ClaimCluster();
      ghost var v1, store1 := view, store;
      NewDirFacts(v1, cs, cluster);
      SameKeys(v, v1);
      var claimed := ClaimSlot(parent);
      ghost var v2, store2 := view, store;
      DirsOnlyTrans(v, v1, store0, store1, store2, 0);
      var loc :- claimed;
      SameLost(v1, v2);
      SameKeys(v1, v2);
      SameRoom(v, v1, parent, PerCluster(cs));
      SameEntriesTrans(v, v1, v2);
      NewDirStill(v1, v2, cs, cluster);
      var shortName := TryFrom(key);
      var fcb := NewFcb(shortName.value, Directory, cluster, now);
      var step := RecordEntry(loc, fcb, later);
      if step.Fail? {
        DirsOnlyTrans(v, v2, store0, store2, store, cluster);
        return Failure(step.error);
      }
      AddedSince(v, v2, loc, fcb, later, view);
      AddedDates(cs, v, loc, fcb, later, view);
      AddedIs(v, loc, fcb, later, view);
      return Success(loc);
    }

    /**
     What a device fault during a removal leaves: either the object has been freed in part, from its end, and
     nothing else has changed; or it is free, and only directories have changed.
     */
    ghost predicate RemoveFaulted(v0: Vol, view0: View, start: nat)
      requires Sized()
      reads `fat, `fatDirty, `layout, `store, device.inner
    {
      || FreeTorn(v0.fat, v0.cl, fat, Cl(), ChainAt(v0.l, start))
      || (Sound() && fat == FreeAll(v0.fat, ChainAt(v0.l, start)) && DirsOnly(view0, v0.store, store, start))
    }

    lemma FreeFaulted(v0: Vol, view0: View, start: nat)
      requires Sized() && FreeTorn(v0.fat, v0.cl, fat, Cl(), ChainAt(v0.l, start))
      ensures RemoveFaulted(v0, view0, start)
    {
      hide FreeTorn, DirsOnly, ChainAt;
    }

    lemma SlotsFaulted(v0: Vol, view0: View, start: nat)
      requires Sized() && Sound() && fat == FreeAll(v0.fat, ChainAt(v0.l, start))
      requires DirsOnly(view0, v0.store, store, start)
      ensures RemoveFaulted(v0, view0, start)
    {
      hide FreeTorn, DirsOnly, ChainAt, FreeAll;
    }

    lemma DirsOnlyOnce(v0: View, store0: Store, store1: Store, store2: Store, start: nat, d: nat)
      requires store1 == store0 - {start} && store2.Keys == store1.Keys && d in v0.dirs
      requires forall s :: s in store2 && s != d ==> store2[s] == store1[s]
      ensures DirsOnly(v0, store0, store2, start)
    {
    }

    lemma DirsOnlyTwice(v0: View, store0: Store, store1: Store, store2: Store, start: nat, d: nat)
      requires DirsOnly(v0, store0, store1, start) && store2.Keys == store1.Keys && d in v0.dirs
      requires forall s :: s in store2 && s != d ==> store2[s] == store1[s]
      ensures DirsOnly(v0, store0, store2, start)
    {
    }

    lemma FewerDirs(v: View, loc: Loc, fcb: Fcb)
      requires HasSlot(v, loc)
      ensures forall d :: d in RemoveEntry(v, loc, fcb).dirs ==> d in v.dirs
    {
    }

    /** The end of removing an entry: free its object, delete the slot, refresh the directory. */
    method RemoveObject(loc: Loc, fcb: Fcb, later: Stamp) returns (r: Outcome)
      requires Ready() && Coherent(cs, view, ROOT) && HandlesOk(view, openFiles)
      requires EntryAt(view, loc, fcb) && (fcb.IsDir() ==> fcb.start in view.dirs && Count(view.dirs[fcb.start]) == 0)
      requires fcb.IsDir() || !IsOpen(openFiles, loc)
      modifies `fat, `fatDirty, `layout, `store, `view, device.inner
      ensures Sized()
      ensures r.Fail? ==> r.error == DeviceFault && Faulted() && RemoveFaulted(old(V()), old(view), fcb.start)
      ensures r.Pass? ==>
        && Ready() && Coherent(cs, view, ROOT) && HandlesOk(view, openFiles) && Steady()
        && Removed(old(view), loc, fcb, later, view)
        && SlotCounts(view) == SlotCounts(old(view)) - (if fcb.IsDir() then {fcb.start as nat} else {})
        && fat == FreeAll(old(fat), ChainAt(old(layout), fcb.start))
        && FreeCount() == old(FreeCount()) + |ChainAt(old(layout), fcb.start)|
    {
      hide Sound, Represents, Coherent, HandlesOk, Files, PutSlot, RemoveEntry, Without, Count, Removed, DirBytes,
        ChainAt, FreeSet, FreeAll, SlotCounts, FreeTorn, SlotOnly, RemoveFaulted, DirsOnly;
      ghost var v := view;
      NoBlobZero();
      EntryObject(loc, fcb);
      RemoveEntryOk(cs, v, loc, fcb);
      SoundIsSized();
      ghost var v0 := V();
      r := FreeObject(fcb.start);
      if r.Fail? {
        FreeFaulted(v0, v, fcb.start);
        return;
      }
      view := Without(v, fcb);
      ghost var store1 := store;
      r := DeleteDirSlot(loc);
      SoundIsSized();
      DirsOnlyOnce(v, v0.store, store1, store, fcb.start, loc.dir);
      if r.Fail? {
        SlotsFaulted(v0, v, fcb.start);
        return;
      }
      RemoveRepresents(cs, store, v, loc, fcb);
      view := RemoveEntry(v, loc, fcb);
      DirBytesFit(loc.dir);
      DirBytesAt(view, loc.dir);
      RemovedOk(cs, v, loc, fcb, later);
      RemoveEntryCounts(v, loc, fcb);
      RefreshedCounts(view, loc.dir, later);
      ghost var v2, store2 := view, store;
      r := RefreshDirSize(loc.dir, later);
      SoundIsSized();
      if r.Fail? {
        FewerDirs(v, loc, fcb);
        DirsOnlyTwice(v, v0.store, store2, store, fcb.start, v2.refs[loc.dir].dir);
        SlotsFaulted(v0, v, fcb.start);
        return;
      }
      RemovedHandles(v, view, openFiles, loc, fcb, later);
    }

    lemma ReadyIsSized()
      requires Ready()
      ensures Sized()
    {
    }

    lemma SoundIsSized()
      requires Sound()
      ensures Sized()
    {
    }

    /** The object of an entry, and the slot it leaves behind. */
    lemma EntryObject(loc: Loc, fcb: Fcb)
      requires Ready() && Coherent(cs, view, ROOT) && EntryAt(view, loc, fcb)
      requires fcb.IsDir() ==> fcb.start in view.dirs && Count(view.dirs[fcb.start]) == 0
      ensures Sound() && (fcb.start == 0 || fcb.start in layout.chains)
      ensures fcb.IsDir() ==> loc.dir != fcb.start
      ensures HasSlot(Without(view, fcb), loc)
      ensures Represents(cs, store - {fcb.start}, Without(view, fcb))
    {
      hide VolOk, Coherent, Count;
      NoObjectZero(V());
      if fcb.IsDir() { CountBound(view.dirs[fcb.start]); }
      EntryNames(cs, view, loc, fcb);
      hide Represents;
      WithoutRepresents(cs, store, view, fcb);
    }

    /** Removes a file that is not open. */
    method Rm(loc: Loc, later: Stamp) returns (r: Outcome)
      requires Intact() && loc.dir in view.dirs
      modifies this, device.inner
      ensures Sized() && (Steady() || Faulted()) && (Steady() ==> Intact()) && openFiles == old(openFiles)
      ensures Faulted() ==> r == Fail(DeviceFault)
      ensures Faulted() ==>
        FileEntry(old(view), loc).Success? && RemoveFaulted(old(V()), old(view), FileEntry(old(view), loc).value.start)
      ensures Steady() && r.Fail? ==> view == old(view) && fat == old(fat) && Disk() == old(Disk())
      ensures match FileEntry(old(view), loc)
        case Failure(err) => Steady() && r == Fail(err)
        case Success(fcb) =>
          if IsOpen(old(openFiles), loc) then Steady() && r == Fail(FileOpen(loc))
          else Steady() ==>
            && r == Pass && Removed(old(view), loc, fcb, later, view)
            && SlotCounts(view) == SlotCounts(old(view))
            && fat == FreeAll(old(fat), ChainAt(old(layout), fcb.start))
            && FreeCount() == old(FreeCount()) + DivCeil(fcb.size, cs)
      ensures r.Pass? ==> ParentDated(old(view), loc.dir, later, view)
    {
      hide Ready, Coherent, HandlesOk, Files, Mountable, Removed, FreeAll, DivCeil, ChainAt, SlotCounts, RemoveFaulted,
        ParentDated;
      ReadyIsSized();
      var found := ReadFileFcb(loc);
      if found.Failure? {
        return Fail(found.error);
      }
      var handle := FindOpenHandle(loc);
      if handle.Some? {
        return Fail(FileOpen(loc));
      }
      ghost var v := view;
      ChainLength(loc, found.value);
      r := RemoveObject(loc, found.value, later);
      if r.Pass? { RemovedDates(cs, v, loc, found.value, later, view); }
    }

    lemma ChainLength(loc: Loc, fcb: Fcb)
      requires Ready() && Coherent(cs, view, ROOT) && EntryAt(view, loc, fcb) && fcb.IsFile()
      ensures |ChainAt(layout, fcb.start)| == DivCeil(fcb.size, cs)
    {
      hide Sound, Represents, Coherent, DivCeil;
      EntryFits(loc, fcb, ROOT);
      FcbChain(fcb);
    }

    /** Removes a directory without entries. */
    method Rmdir(loc: Loc, later: Stamp) returns (r: Outcome)
      requires Intact() && loc.dir in view.dirs
      modifies this, device.inner
      ensures Sized() && (Steady() || Faulted()) && (Steady() ==> Intact()) && openFiles == old(openFiles)
      ensures Faulted() ==> r == Fail(DeviceFault)
      ensures Faulted() ==>
        DirEntry(old(view), loc).Success? && RemoveFaulted(old(V()), old(view), DirEntry(old(view), loc).value.start)
      ensures Steady() && r.Fail? ==> view == old(view) && fat == old(fat) && Disk() == old(Disk())
      ensures match DirEntry(old(view), loc)
        case Failure(err) => Steady() && r == Fail(err)
        case Success(fcb) =>
          if DirBytes(old(view), fcb.start) > 0 then Steady() && r == Fail(DirectoryNotEmpty)
          else Steady() ==>
            && r == Pass && Removed(old(view), loc, fcb, later, view)
            && SlotCounts(view) == SlotCounts(old(view)) - {fcb.start as nat}
            && fat == FreeAll(old(fat), ChainAt(old(layout), fcb.start))
            && FreeCount() == old(FreeCount()) + |ChainAt(old(layout), fcb.start)|
      ensures r.Pass? ==> ParentDated(old(view), loc.dir, later, view)
    {
      hide Ready, Coherent, HandlesOk, Files, Mountable, Removed, FreeAll, ChainAt, Count, SlotCounts, RemoveFaulted,
        ParentDated;
      ReadyIsSized();
      var found := ReadFcbAt(loc);
      if found.Failure? {
        return Fail(found.error);
      }
      var fcb := found.value;
      if !fcb.IsDir() {
        return Fail(NotADirectory);
      }
      EntryNames(cs, view, loc, fcb);
      var used := AnyOccupied(fcb.start);
      if used.value {
        return Fail(DirectoryNotEmpty);
      }
      ghost var v := view;
      r := RemoveObject(loc, fcb, later);
      if r.Pass? { RemovedDates(cs, v, loc, fcb, later, view); }
    }

    // --- what validity means ----------------------------------------------------------------------------

    /** Free clusters and the chains add up to all data clusters. */
    lemma AllAccounted()
      requires Intact()
      ensures FreeCount() + ChainTotal(layout.chains, max + 1) == DataClusterCount(boot)
      ensures var n := FreeCount() + ChainTotal(layout.chains, max + 1);
        boot.dataStartBlock + n * boot.blocksPerCluster <= boot.blockCount
          < boot.dataStartBlock + (n + 1) * boot.blocksPerCluster
    {
      hide Coherent, HandlesOk, Mountable, Represents, Holds, FatOk, FreeSet, DataClusterCount;
      Conservation(fat, max, layout);
      ClustersFill(boot);
    }

    /**
     Every chain is walked without error and belongs to a directory, to exactly the file whose size it fits, or
     to an object that a failed mkdir has lost.
     */
    lemma EveryChainIsNamed(s: nat)
      requires Intact() && s in layout.chains
      ensures AllOk(WalkFrom(fat, max, s)) && Members(WalkFrom(fat, max, s)) == layout.chains[s]
      ensures s in view.dirs || s in Lost(view) ||
        (s in view.refs && IsFileAt(view, view.refs[s])
         && view.dirs[view.refs[s].dir][view.refs[s].idx].fcb.start == s
         && |layout.chains[s]| == DivCeil(view.dirs[view.refs[s].dir][view.refs[s].idx].fcb.size, cs))
    {
      hide VolOk, Coherent, HandlesOk, Mountable, WalkFrom, Cl, Md, Disk, DivCeil, Oks;
      VolChain(V(), s);
      MembersOks(layout.chains[s]);
      if s !in view.dirs && s !in Lost(view) {
        var f := RefEntry(cs, view, ROOT, s);
        hide Ready;
        ChainLength(view.refs[s], f);
        ChainAtIs(layout, s);
      }
    }

    /** Every directory but the root lies below it, in exactly one entry, which records 24 bytes per entry in it. */
    lemma EveryDirectoryIsNamed(t: nat)
      requires Intact() && t in view.dirs && t != ROOT
      ensures t in view.depth && Below(view, ROOT, t, view.depth[t])
      ensures t in view.refs && IsEntry(view, view.refs[t])
      ensures var f := view.dirs[view.refs[t].dir][view.refs[t].idx].fcb;
        f.start == t && f.IsDir() && f.size == FCB_SIZE * Count(view.dirs[t])
      ensures forall l, f :: EntryAt(view, l, f) && f.start == t ==> l == view.refs[t]
    {
      hide Ready, Coherent, HandlesOk, Mountable, Below, Count;
      RootIsNotStale(cs, view, ROOT);
      AllBelowRoot(cs, view, ROOT, t);
      ParentOf(cs, view, ROOT, t);
      var l := view.refs[t];
      var f := view.dirs[l.dir][l.idx].fcb;
      DirRecord(cs, view, l, f);
      forall l1, f1 | EntryAt(view, l1, f1) && f1.start == t ensures l1 == l {
        EntriesDistinct(cs, view, ROOT, l, f, l1, f1);
      }
    }

    // --- flushing the FAT -------------------------------------------------------------------------------

    /** The FAT cache in its 16-bit little-endian form. */
    method FatBytes() returns (bytes: seq<byte>)
      ensures bytes == EncodeFat(fat)
    {
      bytes := [];
      for index := 0 to |fat|
        invariant bytes == EncodeFat(fat[..index])
      {
        EncodeFatStep(fat, index);
        bytes := bytes + EncodeU16(EncodeEntry(fat[index]));
      }
      assert fat[..|fat|] == fat;
    }

    /** Writes the FAT to one of its two places on the disk. */
    method FlushFat(copy: nat) returns (r: Outcome)
      requires Sound() && fatDirty && copy < 2
      modifies device.inner
      ensures Sound() && Cl() == old(Cl())
      ensures FatRegionBytes(boot, Md(), 1 - copy) == FatRegionBytes(boot, old(Md()), 1 - copy)
      ensures r.Pass? ==>
        FatRegionBytes(boot, Md(), copy) == EncodeFat(fat) && device.inner.faults == old(device.inner.faults)
      ensures r.Fail? ==> r.error == DeviceFault && device.inner.faults + 1 == old(device.inner.faults)
    {
      hide FatOk, Holds, LogicalView, Meta, ClustersOf, EncodeFat, FatRegionBytes, BootOnDisk, FatsOnDisk, Chunk,
        Reserved;
      ClusterIdBounds(boot);
      var bytes := FatBytes();
      ghost var d0 := Disk();
      r := WriteBlocks(FatStart(boot, copy), boot.fatBlockCount, bytes);
      FlushFrame(boot, d0, Disk(), copy);
      if r.Pass? {
        FlushedRegion(boot, Disk(), copy, bytes);
      }
    }

    /** Writes the FAT to both copies if it has changed since it was last written. */
    method Sync() returns (r: Outcome)
      requires Ready()
      modifies `fatDirty, device.inner
      ensures Ready() && Cl() == old(Cl())
      ensures old(Intact()) ==> Intact()
      ensures !old(fatDirty) ==> r.Pass? && Disk() == old(Disk())
      ensures r.Pass? ==> !fatDirty && FatsOnDisk(boot, Md(), fat) && device.inner.faults == old(device.inner.faults)
      ensures r.Fail? ==> r.error == DeviceFault && fatDirty && device.inner.faults + 1 == old(device.inner.faults)
    {
      hide FatOk, Holds, LogicalView, Meta, ClustersOf, EncodeFat, FatRegionBytes, BootOnDisk, Represents, Coherent,
        Reserved;
      if !fatDirty {
        return Pass;
      }
      for copy := 0 to 2
        invariant Sound() && fatDirty && Cl() == old(Cl()) && device.inner.faults == old(device.inner.faults)
        invariant copy >= 1 ==> FatRegionBytes(boot, Md(), 0) == EncodeFat(fat)
        invariant copy == 2 ==> FatRegionBytes(boot, Md(), 1) == EncodeFat(fat)
      {
        r := FlushFat(copy);
        if r.Fail? {
          return;
        }
      }
      fatDirty := false;
      return Pass;
    }

    /** The writes of formatting: boot block, reserved entries and root directory, both FAT copies. */
    method InitDisk() returns (r: Outcome)
      requires Sized() && Mountable(boot) && fat == seq(FatLen(boot), _ => Free)
      modifies this, device.inner
      ensures Sized() && openFiles == old(openFiles)
      ensures r.Fail? ==> r.error == DeviceFault && Faulted()
      ensures r.Pass? ==>
        && Ready() && Coherent(cs, view, ROOT) && Steady() && !fatDirty && view == EmptyView(PerCluster(cs))
        && FreeCount() + 1 == DataClusterCount(boot)
    {
      hide ClustersOf, LogicalView, Mountable, Coherent, Represents, Zeros, PerCluster, ClusterSize, EncodeBoot, FatOk,
        Holds, Reserved;
      var block := EncodeBoot(boot) + Zeros(boot.blockSize - BOOT_SIZE);
      BootWritten(boot, block, Zeros(boot.blockSize - BOOT_SIZE));
      assert |Zeros(boot.blockSize - BOOT_SIZE)| == boot.blockSize - BOOT_SIZE
        by { ZerosLen(boot.blockSize - BOOT_SIZE); }
      r := WriteDeviceBlock(0, block);
      if r.Fail? {
        return;
      }
      assert BootOnDisk(boot, Md());
      r := WriteFat(0, EndOfChain);
      r := WriteFat(1, EndOfChain);
      r := WriteFat(boot.rootDirStartCluster, EndOfChain);
      assert fat == FormattedFat(|fat|);
      r := ZeroCluster(boot.rootDirStartCluster);
      if r.Fail? {
        return;
      }
      layout, store, view := FormattedLayout(), map[ROOT := Zeros(cs)], EmptyView(PerCluster(cs));
      FormattedOk(V());
      FormattedFatOk(|fat|, max);
      EmptyOk(cs);
      r := Sync();
    }
  }

  /** Formats a device: accepts exactly the valid configurations that the device can hold. */
  method FormatOnDevice(device: LogicalBlockDevice, cfg: FsConfig) returns (r: Result<MyFileSystem>)
    requires device.Valid()
    modifies device.inner
    ensures r.Success? || (r.Failure? && r.error == InvalidConfig) <==> device.inner.faults == old(device.inner.faults)
    ensures r.Failure? && r.error != InvalidConfig ==>
      r.error == DeviceFault && device.inner.faults < old(device.inner.faults)
    ensures r == Failure(InvalidConfig) <==>
      !(Validate(cfg).Pass? && device.blockSize == cfg.blockSize && device.blockCount >= cfg.blockCount)
    ensures r == Failure(InvalidConfig) ==> device.Valid() && device.Disk() == old(device.Disk())
    ensures r.Success? ==>
      && fresh(r.value) && r.value.device == device && r.value.boot == BootOf(cfg) && r.value.Intact()
      && !r.value.fatDirty && r.value.view == EmptyView(PerCluster(r.value.cs))
      && r.value.openFiles == seq(MAX_OPEN_FILES, _ => None) && r.value.cs == ClusterSize(r.value.boot)
      && r.value.FreeCount() + 1 == DataClusterCount(r.value.boot)
    ensures r.Success? ==> FilledBy(r.value.boot, cfg, r.value.FreeCount())
  {
    hide Validate, BootOk, LogicalView, Mountable, BootOf, ClusterSize, MaxCluster, FatLen, FatBlockCount, FilledBy;
    ValidateError(cfg);
    var valid := Validate(cfg);
    if valid.Fail? {
      return Failure(valid.error);
    }
    if device.blockSize != cfg.blockSize {
      return Failure(InvalidConfig);
    }
    if device.blockCount < cfg.blockCount {
      return Failure(InvalidConfig);
    }
    BootFields(cfg);
    FormattedIsMountable(cfg);
    var fatBlocks := GetFatBlockCount(cfg.blockSize, cfg.blockCount, 2, cfg.blocksPerCluster);
    var boot := BootSector(cfg.blockSize, cfg.blockCount, cfg.blocksPerCluster, 1, fatBlocks, 2, 1 + fatBlocks * 2,
      ROOT);
    ClusterIdBounds(boot);
    var fs := new MyFileSystem.Raw(boot, device, seq(FatLen(boot), _ => Free));
    var written := fs.InitDisk();
    if written.Fail? {
      return Failure(written.error);
    }
    EmptyHandles(fs.view);
    FreshlyFilled(cfg, fs.FreeCount());
    return Success(fs);
  }

  /** The free clusters and the root's fill the volume up to less than a cluster. */
  predicate FilledBy(boot: BootSector, cfg: FsConfig, free: nat)
  {
    && boot.blockSize == cfg.blockSize && boot.blockCount == cfg.blockCount
    && boot.blocksPerCluster == cfg.blocksPerCluster && boot.dataStartBlock == 1 + 2 * boot.fatBlockCount
    && boot.dataStartBlock + (free + 1) * cfg.blocksPerCluster <= cfg.blockCount
    && cfg.blockCount < boot.dataStartBlock + (free + 2) * cfg.blocksPerCluster
  }

  lemma FreshlyFilled(cfg: FsConfig, free: nat)
    requires Validate(cfg).Pass? && free + 1 == DataClusterCount(BootOf(cfg))
    ensures FilledBy(BootOf(cfg), cfg, free)
  {
    hide Validate, BootOf, FatBlockCount;
    BootFields(cfg);
    ClustersFill(BootOf(cfg));
  }

  /** A block of the device. */
  method ReadRaw(device: LogicalBlockDevice, block: nat) returns (r: Result<seq<byte>>)
    requires device.Valid()
    ensures r == if block < device.blockCount then Success(device.Disk()[block]) else Failure(InvalidConfig)
  {
    var dst := new byte[device.blockSize];
    var step := device.ReadBlockInto(block, dst);
    if step.Fail? {
      return Failure(step.error);
    }
    return Success(dst[..]);
  }

  /** Reads the first FAT copy into a table. */
  method ReadFatCache(device: LogicalBlockDevice, boot: BootSector) returns (fat: Fat)
    requires device.Valid() && BootOk(boot) && DiskOk(boot, device.Disk())
    ensures fat == DecodeFat(FatRegionBytes(boot, device.Disk(), 0))
  {
    hide LogicalView, Stream;
    ghost var d, run := device.Disk(), Run(FatStart(boot, 0), boot.fatBlockCount);
    var bytes: seq<byte> := [];
    assert Stream(d, []) == [] by { StreamLen(d, [], 0); }
    for i := 0 to boot.fatBlockCount
      invariant bytes == Stream(d, run[..i])
    {
      var block := ReadRaw(device, boot.fatStartBlock + i);
      assert run[..i + 1] == run[..i] + [boot.fatStartBlock + i];
      StreamSnoc(d, run[..i], boot.fatStartBlock + i);
      bytes := bytes + block.value;
    }
    assert run[..boot.fatBlockCount] == run;
    fat := [];
    for i := 0 to |bytes| / 2
      invariant fat == DecodeFat(bytes)[..i]
    {
      fat := fat + [DecodeEntry(DecodeU16(bytes[2 * i..2 * i + 2]))];
    }
  }

  /** Mounts what is on a device; a boot sector on it must ask for two FAT copies, as formatting writes it. */
  method OpenOnDevice(device: LogicalBlockDevice) returns (r: Result<MyFileSystem>)
    requires device.Valid() && device.blockCount > 0
    requires device.blockSize >= BOOT_SIZE ==> DecodeBoot(device.Disk()[0][..BOOT_SIZE]).fatCopies == 2
    ensures device.blockSize < BOOT_SIZE ==> r == Failure(CorruptFs(BadBootSector))
    ensures device.blockSize >= BOOT_SIZE ==>
      match Mount(device.Disk(), device.blockSize)
      case Failure(err) => r == Failure(err)
      case Success((boot, fat)) =>
        && r.Success? && fresh(r.value) && r.value.device == device && r.value.boot == boot && r.value.fat == fat
        && !r.value.fatDirty && r.value.Sized() && Mountable(boot)
        && r.value.openFiles == seq(MAX_OPEN_FILES, _ => None)
  {
    hide LogicalView, DecodeBoot, ValidateBoot, DecodeFat, FatRegionBytes, BootOk, Mountable;
    var block := ReadRaw(device, 0);
    if |block.value| < BOOT_SIZE {
      return Failure(CorruptFs(BadBootSector));
    }
    var boot := DecodeBoot(block.value[..BOOT_SIZE]);
    var valid := ValidateBoot(device.blockSize, device.blockCount, boot);
    if valid.Fail? {
      return Failure(valid.error);
    }
    ValidateBootIff(device.blockSize, device.blockCount, boot);
    MountableFits(boot);
    var fat := ReadFatCache(device, boot);
    DecodedLen(boot, device.Disk());
    var fs := new MyFileSystem.Raw(boot, device, fat);
    return Success(fs);
  }

  /** After a sync, mounting the device again gives the same file system, with all handles closed. */
  method SyncAndReopen(fs: MyFileSystem) returns (r: Result<MyFileSystem>)
    requires fs.Intact()
    modifies fs`fatDirty, fs.device.inner
    ensures r.Failure? <==> fs.device.inner.faults < old(fs.device.inner.faults)
    ensures r.Failure? ==> r.error == DeviceFault && fs.Intact()
    ensures r.Success? ==>
      && fresh(r.value) && r.value.Intact() && r.value.device == fs.device
      && fs.device.inner.faults == old(fs.device.inner.faults)
      && r.value.boot == fs.boot && r.value.fat == fs.fat && r.value.view == fs.view
      && r.value.openFiles == seq(MAX_OPEN_FILES, _ => None)
  {
    hide LogicalView, DecodeBoot, FatRegionBytes, FatOk, Holds, Reserved, BootOk, Represents, Coherent, Mountable,
      Mount, FatsOnDisk, ClustersOk;
    var step := fs.Sync();
    if step.Fail? {
      return Failure(step.error);
    }
    MountableFits(fs.boot);
    MountFlushed(fs.boot, fs.Disk(), fs.fat, fs.layout);
    FlushedBoot(fs.boot, fs.Disk());
    r := OpenOnDevice(fs.device);
    var fs' := r.value;
    fs'.layout, fs'.store, fs'.view := fs.layout, fs.store, fs.view;
    EmptyHandles(fs.view);
  }

  /** Scans the slots of a directory, cluster by cluster; start 0 has none. */
  class DirSlotIter {
    const fs: MyFileSystem
    const dirStart: nat
    const chainIter: ChainIter
    const perCluster: nat
    var cluster: Option<seq<byte>>
    var indexInCluster: nat
    var entryIndex: nat
    /** Clusters loaded so far. */
    ghost var loaded: nat

    constructor Raw(fs: MyFileSystem, dirStart: nat, chainIter: ChainIter)
      ensures this.fs == fs && this.dirStart == dirStart && this.chainIter == chainIter
      ensures perCluster == PerCluster(fs.cs) && cluster == None && indexInCluster == entryIndex == loaded == 0
    {
      this.fs, this.dirStart, this.chainIter := fs, dirStart, chainIter;
      perCluster := PerCluster(fs.cs);
      cluster, indexInCluster, entryIndex, loaded := None, 0, 0, 0;
    }

    /** The slots to scan. */
    ghost function Row(): seq<DirSlot>
      reads fs`view
    {
      RowAt(fs.view, dirStart)
    }

    /** The iterator stands before slot `entryIndex` of its directory. */
    ghost predicate Valid()
      reads this, chainIter, fs`fat, fs`fatDirty, fs`layout, fs`store, fs`view, fs.device.inner
    {
      && fs.Ready() && (dirStart in fs.view.dirs || dirStart == 0)
      && chainIter.fs == fs && perCluster == PerCluster(fs.cs)
      && loaded <= |ChainAt(fs.layout, dirStart)|
      && chainIter.Rest() == Oks(ChainAt(fs.layout, dirStart)[loaded..])
      && (if cluster.None? then loaded == 0 && indexInCluster == 0 && entryIndex == 0
          else
            && dirStart in fs.store && loaded > 0 && indexInCluster <= perCluster
            && entryIndex == SlotNo(fs.cs, loaded - 1, indexInCluster)
            && cluster.value == Chunk(fs.store[dirStart], loaded - 1, fs.cs))
    }

    /** The chain and the bytes of the directory; nothing for start 0. */
    lemma StartObject()
      requires fs.Ready() && (dirStart in fs.view.dirs || dirStart == 0)
      ensures |Row()| == |ChainAt(fs.layout, dirStart)| * PerCluster(fs.cs)
      ensures dirStart == 0 ==> ChainAt(fs.layout, dirStart) == [] && 0 !in fs.layout.chains
      ensures dirStart != 0 ==>
        && dirStart in fs.layout.chains && ChainAt(fs.layout, dirStart) == fs.layout.chains[dirStart]
        && dirStart in fs.store && |fs.store[dirStart]| == |ChainAt(fs.layout, dirStart)| * fs.cs
        && |fs.store[dirStart]| / fs.cs == |ChainAt(fs.layout, dirStart)| && Row() == Slots(fs.cs, fs.store[dirStart])
    {
      hide VolOk, Slots, PerCluster;
      NoObjectZero(fs.V());
      if dirStart != 0 {
        fs.DirObject(dirStart);
      } else {
        NoSlotsAtZero();
      }
    }

    lemma NoSlotsAtZero()
      requires fs.Ready()
      ensures 0 !in fs.view.dirs && 0 !in fs.layout.chains
    {
      hide VolOk, Slots;
      NoObjectZero(fs.V());
    }

    method Next() returns (r: Option<Result<(Loc, DirSlot)>>)
      requires Valid()
      modifies this, chainIter
      ensures Valid()
      ensures old(entryIndex) < |Row()| ==>
        && entryIndex == old(entryIndex) + 1
        && r == Some(Success((Loc(dirStart, old(entryIndex)), Row()[old(entryIndex)])))
      ensures old(entryIndex) >= |Row()| ==> r == None && entryIndex == old(entryIndex)
    {
      hide VolOk, Slots, SlotOffset, Chunk, Oks, Walk, fs.Cl, fs.Md, fs.Disk, Represents, SlotNo, fs.V, DecodeSlot,
        PerCluster;
      StartObject();
      if cluster.None? || indexInCluster == perCluster {
        var more := LoadCluster();
        if !more {
          return None;
        }
      }
      var start := indexInCluster * FCB_SIZE;
      var loc := Loc(dirStart, entryIndex);
      SlotInChunk(fs.cs, fs.store[dirStart], loaded - 1, indexInCluster);
      SlotNoSteps(fs.cs, loaded - 1, indexInCluster, 0);
      indexInCluster := indexInCluster + 1;
      entryIndex := entryIndex + 1;
      return Some(Success((loc, DecodeSlot(cluster.value[start..start + FCB_SIZE]))));
    }

    /** Loads the next cluster of the directory, if there is one. */
    method LoadCluster() returns (more: bool)
      requires Valid() && (cluster.None? || indexInCluster == perCluster)
      modifies this, chainIter
      ensures Valid() && entryIndex == old(entryIndex)
      ensures more <==> entryIndex < |Row()|
      ensures more ==> cluster.Some? && indexInCluster == 0 && perCluster > 0
    {
      hide VolOk, Slots, SlotOffset, Chunk, Oks, Walk, WalkFrom, fs.Cl, fs.Md, fs.Disk, Represents, SlotNo;
      ghost var ch := ChainAt(fs.layout, dirStart);
      StartObject();
      OksTail(ch, loaded);
      SlotNoSteps(fs.cs, loaded - (if loaded > 0 then 1 else 0), 0, |ch|);
      var item := chainIter.Next();
      if item.None? {
        return false;
      }
      VolPart(fs.V(), dirStart, loaded);
      VolChain(fs.V(), dirStart);
      SlotNoSteps(fs.cs, loaded, 0, 0);
      SlotNoLess(fs.cs, loaded, |ch|);
      var bytes := fs.ReadClusterBytes(item.value.Extract());
      cluster := Some(bytes.value);
      indexInCluster := 0;
      loaded := loaded + 1;
      return true;
    }
  }

  method NewDirSlotIter(fs: MyFileSystem, dirStart: nat) returns (r: Result<DirSlotIter>)
    requires fs.Ready() && (dirStart in fs.view.dirs || dirStart == 0)
    ensures r.Success? && fresh(r.value) && fresh(r.value.chainIter) && r.value.Valid()
    ensures r.value.fs == fs && r.value.dirStart == dirStart && r.value.entryIndex == 0
  {
    hide VolOk, Oks, Walk, WalkFrom, fs.Cl, fs.Md, fs.Disk, Represents, ChainAt;
    if dirStart != 0 { fs.DirObject(dirStart); }
    ghost var chain := fs.ChainOfStart(dirStart);
    var ch := NewChainIter(fs, dirStart);
    assert chain[0..] == chain;
    var it := new DirSlotIter.Raw(fs, dirStart, ch.value);
    return Success(it);
  }

  /** Walks a chain, remembering what it has seen. */
  class ChainIter {
    const fs: MyFileSystem
    const start: nat
    var cursor: Option<nat>
    var visited: set<nat>

    constructor Raw(fs: MyFileSystem, start: nat, cursor: Option<nat>)
      ensures this.fs == fs && this.start == start && this.cursor == cursor && visited == {}
    {
      this.fs, this.start, this.cursor, this.visited := fs, start, cursor, {};
    }

    /** What the iterator still yields. */
    ghost function Rest(): seq<Result<nat>>
      requires fs.Sized()
      reads this, fs`fat, fs.device.inner
    {
      Walk(fs.fat, fs.max, start, cursor, visited)
    }

    method Next() returns (r: Option<Result<nat>>)
      requires fs.Sized()
      modifies this
      ensures old(Rest()) == [] ==> r == None && Rest() == []
      ensures old(Rest()) != [] ==> r == Some(old(Rest())[0]) && Rest() == old(Rest())[1..]
    {
      hide fs.Fits;
      if cursor.None? {
        return None;
      }
      var c := cursor.value;
      if c in visited {
        cursor := None;
        return Some(Failure(CorruptFs(ChainLoop(c))));
      }
      visited := visited + {c};
      var entry := fs.ReadFat(c);
      match entry {
        case Success(Free) =>
          cursor := None;
          return Some(Failure(CorruptFs(ReachesFree(start))));
        case Success(EndOfChain) =>
          cursor := None;
          return Some(Success(c));
        case Success(Next(next)) =>
          cursor := Some(next);
          return Some(Success(c));
        case Failure(err) =>
          cursor := None;
          return Some(Failure(err));
      }
    }
  }

  method NewChainIter(fs: MyFileSystem, start: nat) returns (r: Result<ChainIter>)
    requires fs.Sized()
    ensures r.Failure? ==> WalkFrom(fs.fat, fs.max, start) == [Failure(r.error)]
    ensures r.Success? ==>
      fresh(r.value) && r.value.fs == fs && r.value.Rest() == WalkFrom(fs.fat, fs.max, start)
    ensures r.Failure? <==> start > fs.max
  {
    if start != 0 && start > fs.max {
      return Failure(CorruptFs(OutsideRegion(start)));
    }
    var it := new ChainIter.Raw(fs, start, if start == 0 then None else Some(start));
    return Success(it);
  }
}
