/**
 A volume as values: the clusters and the metadata region cut out of the block contents, and the
 objects (byte strings named by their start cluster) that the FAT chains make of the clusters.
 */
module Volume {
  import opened Base
  import opened Geometry
  import opened Streams
  import opened FatChains

  type Disk = seq<seq<byte>>

  predicate DiskOk(b: BootSector, disk: Disk)
  {
    |disk| >= b.blockCount && forall i :: 0 <= i < |disk| ==> |disk[i]| == b.blockSize
  }

  // --- clusters of a disk -----------------------------------------------------------------------

  function ClusterBytes(b: BootSector, disk: Disk, c: nat): seq<byte>
    requires c >= ROOT
  {
    Stream(disk, Run(FirstBlock(b, c), b.blocksPerCluster))
  }

  ghost function ClustersOf(b: BootSector, disk: Disk): Clusters
    requires BootOk(b)
  {
    seq(MaxCluster(b) + 1, c requires 0 <= c <= MaxCluster(b) => if c < ROOT then [] else ClusterBytes(b, disk, c))
  }

  /** Boot block and both FATs. */
  function Meta(b: BootSector, disk: Disk): Disk
    requires BootOk(b) && DiskOk(b, disk)
  {
    disk[..b.dataStartBlock]
  }

  /** The table has one entry for every id up to `max`, and every data cluster holds `cs` bytes. */
  predicate ClustersOk(cl: Clusters, max: nat, cs: nat)
  {
    |cl| == max + 1 && forall c :: ROOT <= c <= max ==> |cl[c]| == cs
  }

  lemma ClustersSized(b: BootSector, disk: Disk)
    requires BootOk(b) && DiskOk(b, disk)
    ensures ClustersOk(ClustersOf(b, disk), MaxCluster(b), ClusterSize(b))
  {
    hide BootOk, DiskOk, ClusterBytes;
    forall c | ROOT <= c <= MaxCluster(b) ensures |ClusterBytes(b, disk, c)| == ClusterSize(b) {
      ClusterSized(b, disk, c);
    }
  }

  lemma ClusterSized(b: BootSector, disk: Disk, c: nat)
    requires BootOk(b) && DiskOk(b, disk) && ROOT <= c <= MaxCluster(b)
    ensures |ClusterBytes(b, disk, c)| == ClusterSize(b)
  {
    ClusterInside(b, c);
    hide BootOk;
    RunAt(FirstBlock(b, c), b.blocksPerCluster);
    hide Run, FirstBlock;
    StreamLen(disk, Run(FirstBlock(b, c), b.blocksPerCluster), b.blockSize);
  }

  predicate OutsideCluster(b: BootSector, c: nat, block: nat)
    requires c >= ROOT
  {
    block < FirstBlock(b, c) || FirstBlock(b, c) + b.blocksPerCluster <= block
  }

  /** Changing the blocks of one cluster changes no other cluster and none of the metadata. */
  lemma ClusterFrame(b: BootSector, disk: Disk, disk': Disk, c: nat)
    requires BootOk(b) && DiskOk(b, disk) && DiskOk(b, disk') && |disk| == |disk'|
    requires ROOT <= c <= MaxCluster(b)
    requires forall i :: 0 <= i < |disk| && OutsideCluster(b, c, i) ==> disk[i] == disk'[i]
    ensures Meta(b, disk') == Meta(b, disk)
    ensures ClustersOf(b, disk') == ClustersOf(b, disk)[c := ClusterBytes(b, disk', c)]
    ensures forall d :: d != c ==> At(ClustersOf(b, disk'), d) == At(ClustersOf(b, disk), d)
  {
    ClusterInside(b, c);
    forall d | ROOT <= d <= MaxCluster(b) && d != c
      ensures ClusterBytes(b, disk', d) == ClusterBytes(b, disk, d)
    {
      ClusterInside(b, d);
      if d < c { ClustersApart(b, d, c); } else { ClustersApart(b, c, d); }
      hide FirstBlock, MaxCluster, BootOk;
      StreamFrame(disk, disk', Run(FirstBlock(b, d), b.blocksPerCluster));
    }
  }

  /** A cluster whose blocks hold the pieces of `data` holds `data`. */
  lemma ClusterWritten(b: BootSector, disk: Disk, c: nat, data: seq<byte>)
    requires BootOk(b) && DiskOk(b, disk) && ROOT <= c <= MaxCluster(b) && |data| == b.blocksPerCluster * b.blockSize
    requires FirstBlock(b, c) + b.blocksPerCluster <= |disk|
    requires forall p :: FirstBlock(b, c) <= p < FirstBlock(b, c) + b.blocksPerCluster ==>
      disk[p] == Chunk(data, p - FirstBlock(b, c), b.blockSize)
    ensures ClusterBytes(b, disk, c) == data
  {
    hide Stream, Chunk, BootOk, FirstBlock, MaxCluster, Run;
    var first := FirstBlock(b, c);
    var run := Run(first, b.blocksPerCluster);
    RunAt(first, b.blocksPerCluster);
    forall j | 0 <= j < |run| ensures At(disk, run[j]) == Chunk(data, j, b.blockSize) {
      assert disk[first + j] == Chunk(data, first + j - first, b.blockSize);
    }
    StreamByParts(disk, run, b.blockSize, data);
  }

  /** A cluster of which some blocks could not be written. */
  lemma ClusterTorn(b: BootSector, disk: Disk, disk': Disk, c: nat, data: seq<byte>)
    requires BootOk(b) && DiskOk(b, disk) && DiskOk(b, disk') && ROOT <= c <= MaxCluster(b)
    requires |data| == b.blocksPerCluster * b.blockSize && FirstBlock(b, c) + b.blocksPerCluster <= |disk| == |disk'|
    requires forall p :: FirstBlock(b, c) <= p < FirstBlock(b, c) + b.blocksPerCluster ==>
      Torn(disk[p], Chunk(data, p - FirstBlock(b, c), b.blockSize), disk'[p])
    ensures Torn(At(ClustersOf(b, disk), c), data, At(ClustersOf(b, disk'), c))
  {
    ClusterAt(b, disk, c);
    ClusterAt(b, disk', c);
    hide Stream, Chunk, BootOk, FirstBlock, MaxCluster, Run, Torn;
    var first := FirstBlock(b, c);
    var run := Run(first, b.blocksPerCluster);
    RunAt(first, b.blocksPerCluster);
    StreamLen(disk, run, b.blockSize);
    var a := Stream(disk, run);
    forall j | 0 <= j < |run| ensures Torn(Chunk(a, j, b.blockSize), Chunk(data, j, b.blockSize), At(disk', run[j])) {
      ChunkOfStream(disk, run, j, b.blockSize);
      assert Torn(disk[first + j], Chunk(data, first + j - first, b.blockSize), disk'[first + j]);
    }
    StreamTorn(disk', run, b.blockSize, a, data);
  }

  lemma ClusterAt(b: BootSector, disk: Disk, c: nat)
    requires BootOk(b) && ROOT <= c <= MaxCluster(b)
    ensures ClustersOf(b, disk)[c] == ClusterBytes(b, disk, c)
  {
  }

  // --- objects ------------------------------------------------------------------------------------

  type Store = map<nat, seq<byte>>

  lemma PutTwice(store: Store, s: nat, a: seq<byte>, b: seq<byte>)
    ensures store[s := a][s := b] == store[s := b]
  {
  }

  /** Every chain is an object: its bytes are the stream over the chain. */
  ghost predicate Holds(cl: Clusters, l: Layout, store: Store)
  {
    store.Keys == l.chains.Keys && forall s :: s in l.chains ==> store[s] == Stream(cl, l.chains[s])
  }

  lemma ChainUniform(cl: Clusters, fat: Fat, max: nat, cs: nat, l: Layout, s: nat)
    requires ClustersOk(cl, max, cs) && FatOk(fat, max, l) && s in l.chains
    ensures Uniform(cl, l.chains[s], cs) && Distinct(l.chains[s])
    ensures |Stream(cl, l.chains[s])| == |l.chains[s]| * cs
    ensures l.chains[s] != []
    ensures forall i :: 0 <= i < |l.chains[s]| ==> ROOT <= l.chains[s][i] <= max
  {
    var ch := l.chains[s];
    ChainOf(fat, max, l, s);
    hide FatOk;
    forall i, j | 0 <= i < j < |ch| ensures ch[i] != ch[j] {
      if ch[i] == ch[j] { PathEnds(fat, max, ch, i, j); }
    }
    StreamLen(cl, ch, cs);
  }

  /** Objects whose clusters did not change did not change. */
  lemma HoldsFrame(cl: Clusters, cl': Clusters, fat: Fat, max: nat, l: Layout, t: nat)
    requires FatOk(fat, max, l) && t in l.chains
    requires forall c :: c in l.own && l.own[c] == t ==> At(cl', c) == At(cl, c)
    ensures Stream(cl', l.chains[t]) == Stream(cl, l.chains[t])
  {
    forall i | 0 <= i < |l.chains[t]| ensures At(cl', l.chains[t][i]) == At(cl, l.chains[t][i]) {
      PlaceOf(fat, max, l, t, i);
    }
    hide FatOk;
    StreamFrame(cl, cl', l.chains[t]);
  }

  /** Rewriting cluster number `i` of object `s` splices its bytes and touches no other object. */
  lemma HoldsWrite(cl: Clusters, fat: Fat, max: nat, cs: nat, l: Layout, store: Store, s: nat, i: nat, bytes: seq<byte>)
    requires ClustersOk(cl, max, cs) && FatOk(fat, max, l) && Holds(cl, l, store)
    requires s in l.chains && i < |l.chains[s]| && |bytes| == cs
    ensures ROOT <= l.chains[s][i] < |cl|
    ensures Holds(cl[l.chains[s][i] := bytes], l, store[s := PutChunk(store[s], i, cs, bytes)])
    ensures Chunk(store[s], i, cs) == cl[l.chains[s][i]]
  {
    hide FatOk, Stream, Splice;
    var ch := l.chains[s];
    ChainUniform(cl, fat, max, cs, l, s);
    StreamUpdate(cl, ch, i, bytes, cs);
    StreamPart(cl, ch, i, cs);
    assert forall c :: c !in ch ==> At(cl[ch[i] := bytes], c) == At(cl, c);
    HoldsOthers(cl, cl[ch[i] := bytes], fat, max, l, store, s);
  }

  /** Whatever happens to the clusters of object `s`, the other objects keep their bytes. */
  lemma HoldsOthers(cl: Clusters, cl': Clusters, fat: Fat, max: nat, l: Layout, store: Store, s: nat)
    requires FatOk(fat, max, l) && Holds(cl, l, store) && s in l.chains
    requires forall c :: c !in l.chains[s] ==> At(cl', c) == At(cl, c)
    ensures Holds(cl', l, store[s := Stream(cl', l.chains[s])])
  {
    hide Stream, At;
    forall t | t in l.chains && t != s ensures Stream(cl', l.chains[t]) == store[t] {
      OwnedApart(fat, max, l, s, t);
      hide FatOk;
      HoldsFrame(cl, cl', fat, max, l, t);
    }
  }

  lemma OwnedApart(fat: Fat, max: nat, l: Layout, s: nat, t: nat)
    requires FatOk(fat, max, l) && s in l.chains && t != s
    ensures forall c :: c in l.own && l.own[c] == t ==> c !in l.chains[s]
  {
    hide Linked, Owners, UsedIsOwned;
  }

  /** Changes to clusters that no chain owns change no object. */
  lemma HoldsUnused(cl: Clusters, cl': Clusters, fat: Fat, max: nat, l: Layout, store: Store)
    requires FatOk(fat, max, l) && Holds(cl, l, store)
    requires forall c :: c in l.own ==> At(cl', c) == At(cl, c)
    ensures Holds(cl', l, store)
  {
    hide FatOk, Stream, At;
    forall t | t in l.chains ensures Stream(cl', l.chains[t]) == store[t] {
      HoldsFrame(cl, cl', fat, max, l, t);
    }
  }

  /** A freshly allocated and zeroed cluster is a new object of zeros. */
  lemma HoldsAlloc(cl: Clusters, fat: Fat, max: nat, cs: nat, l: Layout, store: Store, c: nat)
    requires ClustersOk(cl, max, cs) && FatOk(fat, max, l) && Holds(cl, l, store)
    requires ROOT <= c <= max && fat[c] == Free
    ensures c !in store
    ensures Holds(cl[c := Zeros(cs)], AllocLayout(l, c), store[c := Zeros(cs)])
  {
    hide FatOk, Stream, Zeros;
    FreeIsUnused(fat, max, l, c);
    var cl' := cl[c := Zeros(cs)];
    StreamOne(cl', c);
    forall t | t in l.chains ensures Stream(cl', l.chains[t]) == store[t] {
      HoldsFrame(cl, cl', fat, max, l, t);
    }
  }

  /** Linking a one-cluster object behind another one appends its bytes. */
  lemma HoldsJoin(cl: Clusters, l: Layout, store: Store, s: nat, t: nat)
    requires Holds(cl, l, store) && s in l.chains && t in l.chains && s != t && l.chains[t] == [t]
    ensures Holds(cl, JoinLayout(l, s, t), (store - {t})[s := store[s] + store[t]])
  {
    StreamConcat(cl, l.chains[s], [t]);
    hide Stream;
  }

  /** Cutting a chain cuts the object in two. */
  lemma HoldsSplit(cl: Clusters, fat: Fat, max: nat, cs: nat, l: Layout, store: Store, s: nat, k: nat)
    requires ClustersOk(cl, max, cs) && FatOk(fat, max, l) && Holds(cl, l, store)
    requires s in l.chains && 0 < k < |l.chains[s]|
    ensures k * cs <= |store[s]|
    ensures Holds(cl, SplitLayout(l, s, k), store[s := store[s][..k * cs]][l.chains[s][k] := store[s][k * cs..]])
  {
    ChainUniform(cl, fat, max, cs, l, s);
    StreamPrefix(cl, l.chains[s], k, cs);
    hide FatOk, Stream;
  }

  /** Removing an object, whatever its clusters hold afterwards. */
  lemma HoldsDrop(cl: Clusters, cl': Clusters, fat: Fat, max: nat, l: Layout, store: Store, s: nat)
    requires FatOk(fat, max, l) && Holds(cl, l, store) && s in l.chains
    requires forall c :: c !in l.chains[s] ==> At(cl', c) == At(cl, c)
    ensures Holds(cl', DropLayout(l, s), store - {s})
  {
    hide Stream, At;
    HoldsOthers(cl, cl', fat, max, l, store, s);
    hide FatOk;
  }

  ghost function ZeroAll(store: Store, out: seq<nat>, cs: nat): Store
  {
    if out == [] then store else ZeroAll(store, out[..|out| - 1], cs)[out[|out| - 1] := Zeros(cs)]
  }

  lemma {:induction false} ZeroAllObjects(store: Store, out: seq<nat>, cs: nat)
    ensures forall s :: s in ZeroAll(store, out, cs) <==> s in store || s in out
    ensures forall s :: s in out ==> ZeroAll(store, out, cs)[s] == Zeros(cs)
    ensures forall s :: s in store && s !in out ==> ZeroAll(store, out, cs)[s] == store[s]
  {
    if out != [] {
      ZeroAllObjects(store, out[..|out| - 1], cs);
      assert out == out[..|out| - 1] + [out[|out| - 1]];
    }
  }
}
