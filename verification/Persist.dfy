/** The on-disk form of the boot sector and the FAT, and what mounting reads back from it. */
module Persist {
  import opened Base
  import opened Geometry
  import opened Streams
  import opened FatChains
  import opened Directory
  import opened Volume

  function EncodeBoot(b: BootSector): (r: seq<byte>)
    ensures |r| == BOOT_SIZE
  {
    EncodeU16(b.blockSize) + EncodeU16(b.blockCount) + EncodeU16(b.blocksPerCluster) + EncodeU16(b.fatStartBlock)
    + EncodeU16(b.fatBlockCount) + EncodeU16(b.fatCopies) + EncodeU16(b.dataStartBlock)
      + EncodeU16(b.rootDirStartCluster)
  }

  function DecodeBoot(s: seq<byte>): BootSector
    requires |s| == BOOT_SIZE
  {
    BootSector(DecodeU16(s[0..2]), DecodeU16(s[2..4]), DecodeU16(s[4..6]), DecodeU16(s[6..8]),
               DecodeU16(s[8..10]), DecodeU16(s[10..12]), DecodeU16(s[12..14]), DecodeU16(s[14..16]))
  }

  /** The eight fields, one by one. */
  lemma BootSlices(b: BootSector)
    ensures var s := EncodeBoot(b);
      && s[0..2] == EncodeU16(b.blockSize) && s[2..4] == EncodeU16(b.blockCount)
      && s[4..6] == EncodeU16(b.blocksPerCluster) && s[6..8] == EncodeU16(b.fatStartBlock)
      && s[8..10] == EncodeU16(b.fatBlockCount) && s[10..12] == EncodeU16(b.fatCopies)
      && s[12..14] == EncodeU16(b.dataStartBlock) && s[14..16] == EncodeU16(b.rootDirStartCluster)
  {
    FourPairs(EncodeU16(b.blockSize), EncodeU16(b.blockCount), EncodeU16(b.blocksPerCluster),
      EncodeU16(b.fatStartBlock));
    FourPairs(EncodeU16(b.fatBlockCount), EncodeU16(b.fatCopies), EncodeU16(b.dataStartBlock),
      EncodeU16(b.rootDirStartCluster));
    var lo := EncodeU16(b.blockSize) + EncodeU16(b.blockCount) + EncodeU16(b.blocksPerCluster)
      + EncodeU16(b.fatStartBlock);
    var hi := EncodeU16(b.fatBlockCount) + EncodeU16(b.fatCopies) + EncodeU16(b.dataStartBlock)
      + EncodeU16(b.rootDirStartCluster);
    TwoHalves(lo, hi);
    assert EncodeBoot(b) == lo + hi;
  }

  lemma FourPairs(a: seq<byte>, b: seq<byte>, c: seq<byte>, d: seq<byte>)
    requires |a| == 2 && |b| == 2 && |c| == 2 && |d| == 2
    ensures var s := a + b + c + d; s[0..2] == a && s[2..4] == b && s[4..6] == c && s[6..8] == d
  {
  }

  lemma TwoHalves(lo: seq<byte>, hi: seq<byte>)
    requires |lo| == 8 && |hi| == 8
    ensures var s := lo + hi;
      && s[0..2] == lo[0..2] && s[2..4] == lo[2..4] && s[4..6] == lo[4..6] && s[6..8] == lo[6..8]
      && s[8..10] == hi[0..2] && s[10..12] == hi[2..4] && s[12..14] == hi[4..6] && s[14..16] == hi[6..8]
  {
  }

  lemma BootRoundTrip(b: BootSector)
    ensures DecodeBoot(EncodeBoot(b)) == b
  {
    BootSlices(b);
    hide EncodeBoot, EncodeU16, DecodeU16;
    U16RoundTrip(b.blockSize, []);
    U16RoundTrip(b.blockCount, []);
    U16RoundTrip(b.blocksPerCluster, []);
    U16RoundTrip(b.fatStartBlock, []);
    U16RoundTrip(b.fatBlockCount, []);
    U16RoundTrip(b.fatCopies, []);
    U16RoundTrip(b.dataStartBlock, []);
    U16RoundTrip(b.rootDirStartCluster, []);
  }

  function EncodeFat(fat: Fat): (r: seq<byte>)
    ensures |r| == 2 * |fat|
  {
    seq(2 * |fat|, i requires 0 <= i < 2 * |fat| => EncodeU16(EncodeEntry(fat[i / 2]))[i % 2])
  }

  function DecodeFat(s: seq<byte>): Fat
  {
    seq(|s| / 2, i requires 0 <= i < |s| / 2 => DecodeEntry(DecodeU16(s[2 * i..2 * i + 2])))
  }

  /** The FAT region gives the table back exactly when no entry links to one of the two marker numbers. */
  lemma FatRoundTrip(fat: Fat)
    ensures DecodeFat(EncodeFat(fat)) == fat <==> forall i :: 0 <= i < |fat| ==> Encodable(fat[i])
  {
    var s := EncodeFat(fat);
    var fat' := DecodeFat(s);
    forall i | 0 <= i < |fat| ensures fat'[i] == fat[i] <==> Encodable(fat[i]) {
      var raw := EncodeEntry(fat[i]);
      assert s[2 * i..2 * i + 2] == EncodeU16(raw);
      U16RoundTrip(raw, []);
      EntryRoundTrip(fat[i], raw);
    }
  }

  // --- what is on the disk ------------------------------------------------------------------------

  ghost predicate BootOnDisk(b: BootSector, meta: Disk)
  {
    |meta| > 0 && |meta[0]| >= BOOT_SIZE && meta[0][..BOOT_SIZE] == EncodeBoot(b)
  }

  function FatRegionBytes(b: BootSector, meta: Disk, copy: nat): seq<byte>
  {
    Stream(meta, Run(FatStart(b, copy), b.fatBlockCount))
  }

  /** Both copies encode exactly the table. */
  ghost predicate FatsOnDisk(b: BootSector, meta: Disk, fat: Fat)
  {
    forall copy :: 0 <= copy < b.fatCopies ==> FatRegionBytes(b, meta, copy) == EncodeFat(fat)
  }

  /** Entries 0 and 1 are end-of-chain marks and entries behind the data clusters are free. */
  predicate Reserved(fat: Fat, max: nat)
  {
    && 1 <= max < |fat|
    && fat[0] == EndOfChain && fat[1] == EndOfChain
    && forall i :: max < i < |fat| ==> fat[i] == Free
  }

  lemma ReservedFreed(fat: Fat, max: nat, ch: seq<nat>)
    requires Reserved(fat, max) && forall i :: 0 <= i < |ch| ==> 2 <= ch[i] <= max
    ensures Reserved(FreeAll(fat, ch), max)
  {
  }

  // --- the whole volume as a value ------------------------------------------------------------------

  /** Geometry, clusters, metadata blocks, FAT cache and its state, and the chains and objects it stands for. */
  datatype Vol = Vol(b: BootSector, max: nat, cs: nat, cl: Clusters, md: Disk, fat: Fat, dirty: bool, l: Layout,
    store: Store)

  /** The FAT is a set of disjoint chains holding `store`; a clean FAT is on the disk, in every copy. */
  ghost predicate VolOk(v: Vol)
  {
    && ROOT <= v.max && v.cs >= FCB_SIZE && ClustersOk(v.cl, v.max, v.cs)
    && FatOk(v.fat, v.max, v.l) && Reserved(v.fat, v.max)
    && Holds(v.cl, v.l, v.store)
    && BootOnDisk(v.b, v.md)
    && (!v.dirty ==> FatsOnDisk(v.b, v.md, v.fat))
  }

  function Taken(v: Vol, c: nat): Vol
    requires c < |v.fat| && c < |v.cl|
  {
    v.(cl := v.cl[c := Zeros(v.cs)], fat := v.fat[c := EndOfChain], dirty := true,
       l := AllocLayout(v.l, c), store := v.store[c := Zeros(v.cs)])
  }

  /** Marking and zeroing a free cluster makes it a new object of zeros. */
  lemma VolTake(v: Vol, c: nat)
    requires VolOk(v) && ROOT <= c <= v.max && v.fat[c] == Free
    ensures c < |v.cl| && c !in v.store && VolOk(Taken(v, c))
  {
    hide FatOk, Holds, AllocLayout;
    AllocOk(v.fat, v.max, v.l, c);
    HoldsAlloc(v.cl, v.fat, v.max, v.cs, v.l, v.store, c);
  }

  /** Clusters that are free may change without any object changing. */
  lemma VolUnused(v: Vol, cl': Clusters)
    requires VolOk(v) && ClustersOk(cl', v.max, v.cs)
    requires forall c :: ROOT <= c <= v.max && v.fat[c] != Free ==> At(cl', c) == At(v.cl, c)
    ensures VolOk(v.(cl := cl', dirty := true))
  {
    forall c | c in v.l.own ensures At(cl', c) == At(v.cl, c) { OwnedIsUsed(v.fat, v.max, v.l, c); }
    HoldsUnused(v.cl, cl', v.fat, v.max, v.l, v.store);
    hide FatOk, Holds;
  }

  /** Freeing a chain removes one object and keeps every other one. */
  lemma VolDrop(v: Vol, s: nat, cl': Clusters)
    requires VolOk(v) && s in v.l.chains && ClustersOk(cl', v.max, v.cs)
    requires forall c :: c !in v.l.chains[s] ==> At(cl', c) == At(v.cl, c)
    ensures VolOk(v.(cl := cl', fat := FreeAll(v.fat, v.l.chains[s]), dirty := true,
                     l := DropLayout(v.l, s), store := v.store - {s}))
  {
    DropOk(v.fat, v.max, v.l, s);
    HoldsDrop(v.cl, cl', v.fat, v.max, v.l, v.store, s);
    ChainOf(v.fat, v.max, v.l, s);
    ReservedFreed(v.fat, v.max, v.l.chains[s]);
    hide FatOk, Holds;
  }

  function Cut(v: Vol, s: nat, k: nat): Vol
    requires s in v.l.chains && 0 < k < |v.l.chains[s]| && v.l.chains[s][k - 1] < |v.fat|
    requires s in v.store && k * v.cs <= |v.store[s]|
  {
    var ch := v.l.chains[s];
    v.(fat := v.fat[ch[k - 1] := EndOfChain], dirty := true, l := SplitLayout(v.l, s, k),
       store := v.store[s := v.store[s][..k * v.cs]][ch[k] := v.store[s][k * v.cs..]])
  }

  /** Ending a chain after `k` clusters cuts its object in two. */
  lemma VolCut(v: Vol, s: nat, k: nat)
    requires VolOk(v) && s in v.l.chains && 0 < k < |v.l.chains[s]|
    ensures ROOT <= v.l.chains[s][k - 1] <= v.max && v.l.chains[s][k] !in v.l.chains
    ensures s in v.store && k * v.cs < |v.store[s]| && VolOk(Cut(v, s, k))
  {
    hide FatOk, SplitLayout, Stream, Holds, BootOnDisk, FatsOnDisk;
    PlaceOf(v.fat, v.max, v.l, s, k - 1);
    SplitOk(v.fat, v.max, v.l, s, k);
    HoldsSplit(v.cl, v.fat, v.max, v.cs, v.l, v.store, s, k);
    ChainUniform(v.cl, v.fat, v.max, v.cs, v.l, s);
    MulOrder(k, |v.l.chains[s]|, v.cs);
    HoldsAt(v.cl, v.l, v.store, s);
  }

  lemma HoldsAt(cl: Clusters, l: Layout, store: Store, s: nat)
    requires Holds(cl, l, store) && s in l.chains
    ensures s in store && store[s] == Stream(cl, l.chains[s])
  {
    hide Stream;
  }

  function Joined(v: Vol, s: nat, t: nat): Vol
    requires s in v.l.chains && v.l.chains[s] != [] && Last(v.l.chains[s]) < |v.fat| && t < 0xFFFF
    requires s in v.store && t in v.store
  {
    v.(fat := v.fat[Last(v.l.chains[s]) := Next(t)], dirty := true, l := JoinLayout(v.l, s, t),
       store := (v.store - {t})[s := v.store[s] + v.store[t]])
  }

  /** Linking a one-cluster object behind another one appends its bytes. */
  lemma VolJoin(v: Vol, s: nat, t: nat)
    requires VolOk(v) && s in v.l.chains && t in v.l.chains && s != t && v.l.chains[t] == [t]
    ensures v.l.chains[s] != [] && ROOT <= Last(v.l.chains[s]) <= v.max && t <= v.max < 0xFFFF
    ensures s in v.store && t in v.store && VolOk(Joined(v, s, t))
  {
    JoinOk(v.fat, v.max, v.l, s, t);
    ChainOf(v.fat, v.max, v.l, s);
    HoldsJoin(v.cl, v.l, v.store, s, t);
    hide FatOk, Holds;
  }

  /** Whatever happens to the clusters of one object, the other objects keep their bytes. */
  lemma VolOthers(v: Vol, s: nat, cl': Clusters)
    requires VolOk(v) && s in v.l.chains && ClustersOk(cl', v.max, v.cs)
    requires forall c :: c !in v.l.chains[s] ==> At(cl', c) == At(v.cl, c)
    ensures s in v.store && |Stream(cl', v.l.chains[s])| == |v.store[s]|
    ensures VolOk(v.(cl := cl', store := v.store[s := Stream(cl', v.l.chains[s])]))
  {
    HoldsOthers(v.cl, cl', v.fat, v.max, v.l, v.store, s);
    ChainUniform(v.cl, v.fat, v.max, v.cs, v.l, s);
    ChainUniform(cl', v.fat, v.max, v.cs, v.l, s);
    hide FatOk, Stream;
  }

  /** Rewriting cluster number `i` of an object splices its bytes and touches no other object. */
  lemma VolWrite(v: Vol, s: nat, i: nat, bytes: seq<byte>)
    requires VolOk(v) && s in v.l.chains && i < |v.l.chains[s]| && |bytes| == v.cs
    ensures ROOT <= v.l.chains[s][i] < |v.cl| && s in v.store
    ensures Chunk(v.store[s], i, v.cs) == v.cl[v.l.chains[s][i]]
    ensures VolOk(v.(cl := v.cl[v.l.chains[s][i] := bytes],
      store := v.store[s := PutChunk(v.store[s], i, v.cs, bytes)]))
  {
    hide FatOk, Stream, PutChunk, Chunk;
    HoldsWrite(v.cl, v.fat, v.max, v.cs, v.l, v.store, s, i, bytes);
    hide Holds;
  }

  /** Cluster number `i` of an object holds the matching stretch of its bytes. */
  lemma VolPart(v: Vol, s: nat, i: nat)
    requires VolOk(v) && s in v.l.chains && i < |v.l.chains[s]|
    ensures ROOT <= v.l.chains[s][i] < |v.cl| && s in v.store
    ensures v.cl[v.l.chains[s][i]] == Chunk(v.store[s], i, v.cs)
  {
    VolWrite(v, s, i, Zeros(v.cs));
  }

  lemma VolDistinct(v: Vol, s: nat)
    requires VolOk(v) && s in v.l.chains
    ensures s in v.store && v.store[s] == Stream(v.cl, v.l.chains[s])
    ensures Uniform(v.cl, v.l.chains[s], v.cs) && Distinct(v.l.chains[s])
  {
    ChainUniform(v.cl, v.fat, v.max, v.cs, v.l, s);
    hide FatOk, Stream;
  }

  /** No chain is longer than the number of data clusters. */
  lemma VolChainBound(v: Vol, s: nat)
    requires VolOk(v) && s in v.l.chains
    ensures |v.l.chains[s]| <= v.max - 1
  {
    var ch := v.l.chains[s];
    ChainElems(v.fat, v.max, v.l, s);
    ChainOf(v.fat, v.max, v.l, s);
    hide FatOk;
    SubsetCount(Elems(ch), DataIds(v.max));
  }

  lemma NoObjectZero(v: Vol)
    requires VolOk(v)
    ensures 0 !in v.l.chains && 0 !in v.store && v.l.chains.Keys == v.store.Keys
  {
    forall s | s in v.l.chains ensures s != 0 {
      ChainOf(v.fat, v.max, v.l, s);
    }
  }

  /** Setting the dirty flag is always allowed. */
  lemma VolDirty(v: Vol)
    requires VolOk(v)
    ensures VolOk(v.(dirty := true))
  {
  }

  /** What a chain of a sound volume looks like. */
  lemma VolChain(v: Vol, s: nat)
    requires VolOk(v) && s in v.l.chains
    ensures v.max < |v.fat| && v.cs >= FCB_SIZE && s != 0 && v.l.chains[s] != [] && v.l.chains[s][0] == s
    ensures forall i :: 0 <= i < |v.l.chains[s]| ==> ROOT <= v.l.chains[s][i] <= v.max
    ensures AllOk(WalkFrom(v.fat, v.max, s)) && WalkFrom(v.fat, v.max, s) == Oks(v.l.chains[s])
    ensures v.fat[Last(v.l.chains[s])] == EndOfChain
    ensures s in v.store && |v.store[s]| == |v.l.chains[s]| * v.cs
    ensures v.store.Keys == v.l.chains.Keys
  {
    ChainUniform(v.cl, v.fat, v.max, v.cs, v.l, s);
    ChainWalk(v.fat, v.max, v.l, s);
    PlaceOf(v.fat, v.max, v.l, s, 0);
    EndIsEnd(v.fat, v.max, v.l, s);
    hide FatOk, Walk, Stream;
  }

  // --- growing ---------------------------------------------------------------------------------------

  /** Distinct new clusters, none of them the start of a chain. */
  predicate Fresh(chains: map<nat, seq<nat>>, max: nat, extra: seq<nat>)
  {
    && (forall i :: 0 <= i < |extra| ==> ROOT <= extra[i] <= max && extra[i] !in chains)
    && Distinct(extra)
  }

  /** The chains when the new clusters `done` hang behind object `obj` and those of `rest` are still alone. */
  function GrowingChains(chains: map<nat, seq<nat>>, ch: seq<nat>, obj: nat, rest: set<nat>): map<nat, seq<nat>>
  {
    (chains + map e | e in rest :: [e])[obj := ch]
  }

  function GrowingStore(store: Store, bytes: seq<byte>, obj: nat, rest: set<nat>, cs: nat): Store
  {
    (store + map e | e in rest :: Zeros(cs))[obj := bytes]
  }

  /** Between allocation and the last link: `j` of the new clusters hang behind object `obj`. */
  ghost predicate Growing(v0: Vol, ch: seq<nat>, bytes: seq<byte>, obj: nat, extra: seq<nat>, j: nat, v: Vol)
  {
    && VolOk(v) && v.cs == v0.cs && v.max == v0.max && |v.fat| == |v0.fat|
    && j <= |extra| && obj !in Elems(extra[j..])
    && v.l.chains == GrowingChains(v0.l.chains, ch + extra[..j], obj, Elems(extra[j..]))
    && v.store == GrowingStore(v0.store, bytes + ZeroPad(j, v.cs), obj, Elems(extra[j..]), v.cs)
    && (forall c :: 0 <= c < |v.fat| && c !in extra && (ch == [] || c != Last(ch)) ==> v.fat[c] == v0.fat[c])
  }

  lemma AllocatedAreFresh(v: Vol, extra: seq<nat>)
    requires VolOk(v) && extra == LowestFree(v.fat, ROOT, v.max, |extra|)
    ensures Fresh(v.l.chains, v.max, extra)
    ensures v.store.Keys == v.l.chains.Keys
  {
    LowestFreeMeaning(v.fat, ROOT, v.max, |extra|);
    forall i | 0 <= i < |extra| ensures extra[i] !in v.l.chains {
      FreeIsUnused(v.fat, v.max, v.l, extra[i]);
    }
  }

  /** The maps right after allocation, before any link is written: an old object, or the first new cluster. */
  lemma AllocatedChains(l: Layout, extra: seq<nat>, obj: nat)
    ensures obj in l.chains && obj !in extra ==>
      AllocAll(l, extra).chains == GrowingChains(l.chains, l.chains[obj], obj, Elems(extra))
    ensures extra != [] && obj == extra[0] ==>
      AllocAll(l, extra).chains == GrowingChains(l.chains, [obj], obj, Elems(extra[1..]))
  {
    AllocAllChains(l, extra);
    hide AllocAll;
    ElemsOf(extra);
  }

  lemma AllocatedStore(store: Store, extra: seq<nat>, obj: nat, cs: nat)
    ensures obj in store && obj !in extra ==>
      ZeroAll(store, extra, cs) == GrowingStore(store, store[obj], obj, Elems(extra), cs)
    ensures extra != [] && obj == extra[0] ==>
      ZeroAll(store, extra, cs) == GrowingStore(store, Zeros(cs), obj, Elems(extra[1..]), cs)
  {
    ZeroAllObjects(store, extra, cs);
    hide ZeroAll, Zeros;
    ElemsOf(extra);
  }

  lemma ElemsOf(extra: seq<nat>)
    ensures forall c :: c in Elems(extra) <==> c in extra
    ensures extra != [] ==> forall c :: c in extra <==> c == extra[0] || c in Elems(extra[1..])
  {
    if extra != [] {
      assert extra == [extra[0]] + extra[1..];
    }
  }

  /** Allocation leaves an old object in place; `ch` and `bytes` are what it already has. */
  lemma GrowOld(v0: Vol, v: Vol, extra: seq<nat>, obj: nat)
    requires VolOk(v) && v.cs == v0.cs && v.max == v0.max
    requires Fresh(v0.l.chains, v0.max, extra) && obj in v0.l.chains && obj in v0.store
    requires v.fat == MarkAll(v0.fat, extra) && v.l == AllocAll(v0.l, extra)
      && v.store == ZeroAll(v0.store, extra, v0.cs)
    ensures Growing(v0, v0.l.chains[obj], v0.store[obj], obj, extra, 0, v)
  {
    hide VolOk, MarkAll, AllocAll, ZeroAll, GrowingChains, GrowingStore, ZeroPad;
    MarkAllEntries(v0.fat, extra);
    AllocatedChains(v0.l, extra, obj);
    AllocatedStore(v0.store, extra, obj, v0.cs);
    ZeroPadStep(0, v0.cs);
    assert extra[0..] == extra && v0.l.chains[obj] + extra[..0] == v0.l.chains[obj];
    assert v0.store[obj] + [] == v0.store[obj];
  }

  /** For an empty file the first new cluster is the object. */
  lemma GrowNew(v0: Vol, v: Vol, extra: seq<nat>)
    requires VolOk(v) && v.cs == v0.cs && v.max == v0.max
    requires Fresh(v0.l.chains, v0.max, extra) && extra != []
    requires v.fat == MarkAll(v0.fat, extra) && v.l == AllocAll(v0.l, extra)
      && v.store == ZeroAll(v0.store, extra, v0.cs)
    ensures Growing(v0, [], [], extra[0], extra, 1, v)
  {
    hide VolOk, MarkAll, AllocAll, ZeroAll, GrowingChains, GrowingStore, ZeroPad;
    MarkAllEntries(v0.fat, extra);
    AllocatedChains(v0.l, extra, extra[0]);
    AllocatedStore(v0.store, extra, extra[0], v0.cs);
    ZeroPadStep(0, v0.cs);
    assert [] + extra[..1] == [extra[0]];
    assert [] + Zeros(v0.cs) == Zeros(v0.cs);
  }

  lemma GrowChains(chains: map<nat, seq<nat>>, ch: seq<nat>, obj: nat, rest: set<nat>, t: nat)
    requires t in rest && obj !in rest && t !in chains
    ensures var c := GrowingChains(chains, ch, obj, rest);
      && t in c && c[t] == [t] && obj in c && c[obj] == ch
      && (c - {t})[obj := c[obj] + [t]] == GrowingChains(chains, ch + [t], obj, rest - {t})
  {
  }

  lemma GrowStore(store: Store, bytes: seq<byte>, obj: nat, rest: set<nat>, t: nat, cs: nat)
    requires t in rest && obj !in rest && t !in store
    ensures var s := GrowingStore(store, bytes, obj, rest, cs);
      && t in s && obj in s
      && (s - {t})[obj := s[obj] + s[t]] == GrowingStore(store, bytes + Zeros(cs), obj, rest - {t}, cs)
  {
    hide Zeros;
  }

  lemma GrowSeqs(ch: seq<nat>, bytes: seq<byte>, extra: seq<nat>, j: nat, cs: nat)
    requires j < |extra| && Distinct(extra)
    ensures (ch + extra[..j]) + [extra[j]] == ch + extra[..j + 1]
    ensures (bytes + ZeroPad(j, cs)) + Zeros(cs) == bytes + ZeroPad(j + 1, cs)
    ensures extra[j] in Elems(extra[j..]) && Elems(extra[j..]) - {extra[j]} == Elems(extra[j + 1..])
    ensures ch + extra[..j] != [] ==> Last(ch + extra[..j]) == if j > 0 then extra[j - 1] else Last(ch)
    ensures extra[j] in extra && (j > 0 ==> extra[j - 1] in extra)
  {
    ZeroPadStep(j, cs);
    hide ZeroPad, Zeros;
    assert extra[j..] == [extra[j]] + extra[j + 1..];
  }

  /** Writing one link. */
  lemma GrowStep(v0: Vol, ch: seq<nat>, bytes: seq<byte>, obj: nat, extra: seq<nat>, j: nat, v: Vol)
    requires Growing(v0, ch, bytes, obj, extra, j, v) && j < |extra|
    requires Fresh(v0.l.chains, v0.max, extra) && v0.store.Keys == v0.l.chains.Keys
    ensures obj in v.l.chains && v.l.chains[obj] == ch + extra[..j] && v.l.chains[obj] != []
    ensures ROOT <= Last(v.l.chains[obj]) <= v.max < |v.fat|
    ensures v.max < 0xFFFF && obj in v.store && extra[j] in v.store
    ensures Growing(v0, ch, bytes, obj, extra, j + 1, Joined(v, obj, extra[j]))
  {
    hide VolOk, GrowingChains, GrowingStore, ZeroPad;
    GrowSeqs(ch, bytes, extra, j, v.cs);
    GrowChains(v0.l.chains, ch + extra[..j], obj, Elems(extra[j..]), extra[j]);
    GrowStore(v0.store, bytes + ZeroPad(j, v.cs), obj, Elems(extra[j..]), extra[j], v.cs);
    VolJoin(v, obj, extra[j]);
    VolChain(v, obj);
  }

  /** The last new cluster ends the chain already. */
  lemma GrowLast(v0: Vol, ch: seq<nat>, bytes: seq<byte>, obj: nat, extra: seq<nat>, v: Vol)
    requires Growing(v0, ch, bytes, obj, extra, |extra|, v) && extra != []
    ensures extra[|extra| - 1] <= v.max < |v.fat| && v.fat[extra[|extra| - 1]] == EndOfChain
    ensures Growing(v0, ch, bytes, obj, extra, |extra|, v.(dirty := true))
  {
    assert Last(ch + extra[..|extra|]) == extra[|extra| - 1];
    VolChain(v, obj);
    VolDirty(v);
    hide VolOk;
  }

  /** All links written: one object has grown by zeros and nothing else has changed. */
  lemma GrowEnd(v0: Vol, ch: seq<nat>, bytes: seq<byte>, obj: nat, extra: seq<nat>, v: Vol)
    requires Growing(v0, ch, bytes, obj, extra, |extra|, v)
    ensures v.l.chains == v0.l.chains[obj := ch + extra]
    ensures v.store == v0.store[obj := bytes + ZeroPad(|extra|, v.cs)]
  {
    hide VolOk, ZeroPad;
    assert extra[..|extra|] == extra && Elems(extra[|extra|..]) == {};
  }

  function ChainAt(l: Layout, s: nat): seq<nat> { if s in l.chains then l.chains[s] else [] }

  lemma ChainAtIs(l: Layout, s: nat)
    requires s in l.chains
    ensures ChainAt(l, s) == l.chains[s]
  {
  }

  function ObjectAt(store: Store, s: nat): seq<byte> { if s in store then store[s] else [] }

  /** Object `start` (none if 0) has become `start'`, longer by the zeroed clusters `extra`; nothing else changed. */
  ghost predicate Extended(v0: Vol, start: nat, start': nat, extra: seq<nat>, v: Vol)
  {
    && extra != [] && start' == (if start == 0 then extra[0] else start)
    && v.max == v0.max && v.cs == v0.cs && Fresh(v0.l.chains, v0.max, extra)
    && v.l.chains == v0.l.chains[start' := ChainAt(v0.l, start) + extra]
    && v.store == v0.store[start' := ObjectAt(v0.store, start) + ZeroPad(|extra|, v0.cs)]
    && |v.fat| == |v0.fat|
    && forall c :: 0 <= c < |v.fat| && c !in extra && (ChainAt(v0.l, start) == [] || c != Last(ChainAt(v0.l, start)))
         ==> v.fat[c] == v0.fat[c]
  }

  lemma NoneTaken(v: Vol)
    ensures MarkAll(v.fat, []) == v.fat && AllocAll(v.l, []) == v.l && ZeroAll(v.store, [], v.cs) == v.store
  {
  }

  lemma OneMoreTaken(v: Vol, out: seq<nat>, i: nat)
    requires i < |out| && forall k :: 0 <= k < |out| ==> out[k] < |v.fat|
    ensures var was, now := out[..i], out[..i + 1];
      && |MarkAll(v.fat, was)| == |v.fat| && MarkAll(v.fat, now) == MarkAll(v.fat, was)[out[i] := EndOfChain]
      && AllocAll(v.l, now) == AllocLayout(AllocAll(v.l, was), out[i])
      && ZeroAll(v.store, now, v.cs) == ZeroAll(v.store, was, v.cs)[out[i] := Zeros(v.cs)]
  {
    assert out[..i + 1][..i] == out[..i];
    hide AllocLayout, Zeros;
  }

  // --- interrupted frees ------------------------------------------------------------------------------

  /** Of the chain `ch` exactly the clusters from number `i` on are free, and only they may have changed. */
  ghost predicate FreedFrom(fat0: Fat, cl0: Clusters, fat: Fat, cl: Clusters, ch: seq<nat>, i: nat)
    requires i <= |ch|
  {
    fat == FreeAll(fat0, ch[i..]) && forall c :: c !in ch[i..] ==> At(cl, c) == At(cl0, c)
  }

  /** What an interrupted free leaves: clusters are freed and zeroed one by one, from the end of the chain. */
  ghost predicate FreeTorn(fat0: Fat, cl0: Clusters, fat: Fat, cl: Clusters, ch: seq<nat>)
  {
    exists i :: 0 <= i < |ch| && FreedFrom(fat0, cl0, fat, cl, ch, i)
  }

  /** The table after a chain was ended behind its first `keep` clusters, if any are kept. */
  function EndMarked(fat: Fat, ch: seq<nat>, keep: nat): Fat
    requires keep <= |ch| && (keep > 0 ==> ch[keep - 1] < |fat|)
  {
    if keep > 0 then fat[ch[keep - 1] := EndOfChain] else fat
  }

  /** What an interrupted trim leaves: the chain ends where it should, and what is behind is freed in part. */
  ghost predicate TrimTorn(fat0: Fat, cl0: Clusters, fat: Fat, cl: Clusters, ch: seq<nat>, keep: nat)
  {
    && keep < |ch| && (keep > 0 ==> ch[keep - 1] < |fat0|)
    && FreeTorn(EndMarked(fat0, ch, keep), cl0, fat, cl, ch[keep..])
  }

  /** The entry of an object freed in part names a chain that runs into a free cluster. */
  lemma TornWalk(v: Vol, s: nat, fat: Fat, cl: Clusters)
    requires VolOk(v) && s in v.l.chains && FreeTorn(v.fat, v.cl, fat, cl, v.l.chains[s])
    ensures v.max < |fat| && exists i :: 0 <= i < |v.l.chains[s]| && StopsAtFree(fat, v.max, v.l.chains[s], i)
  {
    hide FatOk, StopsAtFree;
    var ch := v.l.chains[s];
    var i :| 0 <= i < |ch| && FreedFrom(v.fat, v.cl, fat, cl, ch, i);
    FatBound(v);
    ChainOf(v.fat, v.max, v.l, s);
    FreedWalk(v.fat, v.max, s, ch, i);
  }

  /** What a trim was to keep of a chain is a chain after an interrupted one, too. */
  lemma TrimTornWalk(v: Vol, s: nat, fat: Fat, cl: Clusters, keep: nat)
    requires VolOk(v) && s in v.l.chains && TrimTorn(v.fat, v.cl, fat, cl, v.l.chains[s], keep) && keep > 0
    ensures v.max < |fat| && WalkFrom(fat, v.max, s) == Oks(v.l.chains[s][..keep])
    ensures forall c :: c in v.l.chains[s][..keep] ==> At(cl, c) == At(v.cl, c)
  {
    hide VolOk, ChainOk, WalkFrom, Oks, EndMarked, FreeAll;
    var ch := v.l.chains[s];
    FatBound(v);
    FatMaxBound(v);
    VolChainOk(v, s);
    ChainCut(v.fat, v.max, s, ch, keep);
    var i :| 0 <= i < |ch[keep..]| && FreedFrom(EndMarked(v.fat, ch, keep), v.cl, fat, cl, ch[keep..], i);
    assert forall c :: c in ch[..keep] ==> c in ch;
    FrontUntouched(v.fat, ch, keep, i);
    ChainKept(EndMarked(v.fat, ch, keep), fat, v.max, s, ch[..keep]);
    ChainIsPath(fat, v.max, s, ch[..keep]);
  }

  lemma VolChainOk(v: Vol, s: nat)
    requires VolOk(v) && s in v.l.chains
    ensures v.max < |v.fat| && ChainOk(v.fat, v.max, s, v.l.chains[s])
    ensures forall c :: c in v.l.chains[s] ==> c < |v.fat|
  {
    hide Holds;
    ChainOf(v.fat, v.max, v.l, s);
  }

  lemma FrontUntouched(fat: Fat, ch: seq<nat>, keep: nat, i: nat)
    requires 0 < keep < |ch| && ch[keep - 1] < |fat| && i < |ch[keep..]|
    requires forall c :: c in ch[..keep] ==> c !in ch[keep..] && c < |fat|
    ensures var marked := EndMarked(fat, ch, keep);
      && marked == fat[ch[keep - 1] := EndOfChain] && |FreeAll(marked, ch[keep..][i..])| == |fat|
      && forall c :: c in ch[..keep] ==> c !in ch[keep..][i..] && FreeAll(marked, ch[keep..][i..])[c] == marked[c]
  {
    assert forall c :: c in ch[keep..][i..] ==> c in ch[keep..];
  }

  lemma FatMaxBound(v: Vol)
    requires VolOk(v)
    ensures v.max < 0xFFFF
  {
  }

  lemma FatBound(v: Vol)
    requires VolOk(v)
    ensures v.max < |v.fat|
  {
  }

  // --- trimming -------------------------------------------------------------------------------------

  /** The table after a chain keeps only its first `keep` clusters. */
  function TrimmedFat(fat: Fat, ch: seq<nat>, keep: nat): Fat
  {
    if keep >= |ch| then fat
    else
      seq(|fat|, c requires 0 <= c < |fat| =>
        if c in ch[keep..] then Free else if keep > 0 && c == ch[keep - 1] then EndOfChain else fat[c])
  }

  lemma TrimAll(fat: Fat, ch: seq<nat>)
    requires ch != []
    ensures TrimmedFat(fat, ch, 0) == FreeAll(fat, ch)
  {
    assert ch[0..] == ch;
  }

  function TrimmedChains(chains: map<nat, seq<nat>>, s: nat, keep: nat): map<nat, seq<nat>>
    requires s in chains
  {
    if keep == 0 then chains - {s}
    else if keep < |chains[s]| then chains[s := chains[s][..keep]]
    else chains
  }

  function TrimmedStore(store: Store, s: nat, keep: nat, cs: nat): Store
    requires s in store
  {
    if keep == 0 then store - {s}
    else if keep * cs < |store[s]| then store[s := store[s][..keep * cs]]
    else store
  }

  /** Cutting a chain and freeing the tail is trimming. */
  lemma CutAndDrop(v: Vol, s: nat, k: nat)
    requires VolOk(v) && s in v.l.chains && 0 < k < |v.l.chains[s]|
    requires v.l.chains[s][k - 1] < |v.fat| && v.l.chains[s][k] !in v.l.chains
    requires s in v.store && k * v.cs < |v.store[s]|
    ensures var ch, v' := v.l.chains[s], Cut(v, s, k);
      && ch[k] in v'.l.chains && v'.l.chains[ch[k]] == ch[k..]
      && FreeAll(v'.fat, ch[k..]) == TrimmedFat(v.fat, ch, k)
      && DropLayout(v'.l, ch[k]).chains == TrimmedChains(v.l.chains, s, k)
      && v'.store - {ch[k]} == TrimmedStore(v.store, s, k, v.cs)
  {
    ChainOf(v.fat, v.max, v.l, s);
    ChainCut(v.fat, v.max, s, v.l.chains[s], k);
    hide VolOk, ChainOk;
    CutFat(v.fat, v.l.chains[s], k);
    CutMaps(v.l, v.store, s, k, v.cs);
    hide TrimmedFat, TrimmedChains, TrimmedStore, FreeAll, DropLayout, SplitLayout;
  }

  lemma CutFat(fat: Fat, ch: seq<nat>, k: nat)
    requires 0 < k < |ch| && ch[k - 1] < |fat| && forall c :: c in ch[..k] ==> c !in ch[k..]
    ensures FreeAll(fat[ch[k - 1] := EndOfChain], ch[k..]) == TrimmedFat(fat, ch, k)
  {
    assert ch[..k][k - 1] == ch[k - 1];
  }

  lemma CutMaps(l: Layout, store: Store, s: nat, k: nat, cs: nat)
    requires s in l.chains && 0 < k < |l.chains[s]| && l.chains[s][k] !in l.chains
    requires s in store && k * cs < |store[s]| && store.Keys == l.chains.Keys
    ensures var ch, l' := l.chains[s], SplitLayout(l, s, k);
      && ch[k] in l'.chains && l'.chains[ch[k]] == ch[k..]
      && DropLayout(l', ch[k]).chains == TrimmedChains(l.chains, s, k)
      && store[s := store[s][..k * cs]][ch[k] := store[s][k * cs..]] - {ch[k]} == TrimmedStore(store, s, k, cs)
  {
    var ch := l.chains[s];
    assert ch[k] !in store.Keys;
  }

  /** Object `start` was made longer by `extra`, or was long enough. */
  ghost predicate Reached(v0: Vol, start: nat, start': nat, extra: seq<nat>, v: Vol)
  {
    if extra == [] then
      start' == start && v.max == v0.max && v.cs == v0.cs && v.fat == v0.fat && v.l == v0.l && v.store == v0.store
    else
      && Extended(v0, start, start', extra, v) && v0.max < |v0.fat|
      && extra == LowestFree(v0.fat, ROOT, v0.max, |extra|)
  }

  /** The bytes a file's object has room for before a write that ends at `end`: old ones and fresh zeros. */
  ghost function RoomFor(v: Vol, start: nat, size: nat, end: nat): seq<byte>
    requires v.cs > 0
  {
    ObjectAt(v.store, start) + ZeroPad(Missing(size, end, v.cs), v.cs)
  }

  /** Which object `start` becomes, and that it has room up to `end`. */
  ghost predicate ChainMade(v0: Vol, start: nat, size: nat, start': nat, end: nat)
    requires v0.cs > 0
  {
    && (start' == 0 <==> start == 0 && end == 0)
    && (start != 0 ==> start' == start)
    && (start == 0 && start' != 0 ==> start' !in v0.store && ROOT <= start' <= v0.max)
    && end <= |RoomFor(v0, start, size, end)|
  }

  /**
   Object `start` (none if 0), sized for `size` bytes, has become `start'` with room up to `end`: the chain
   has grown by the lowest free clusters, just as many as needed, and no other chain has changed.
   */
  ghost predicate ChainGrew(v0: Vol, start: nat, size: nat, start': nat, end: nat, chains: map<nat, seq<nat>>)
    requires v0.cs > 0 && v0.max < |v0.fat|
  {
    && ChainMade(v0, start, size, start', end)
    && chains == (if Missing(size, end, v0.cs) == 0 then v0.l.chains
                  else v0.l.chains[start' := ChainAt(v0.l, start) + LowestFree(v0.fat, ROOT, v0.max,
                    Missing(size, end, v0.cs))])
  }

  /** The object has grown by zeros as far as needed, and no object has changed otherwise. */
  ghost predicate RoomMade(v0: Vol, start: nat, size: nat, start': nat, end: nat, v: Vol)
    requires v0.cs > 0 && v0.max < |v0.fat|
  {
    var room := RoomFor(v0, start, size, end);
    && ChainGrew(v0, start, size, start', end, v.l.chains) && end <= |room|
    && (start' == 0 ==> start == 0 && end == 0)
    && v.store == (if start' == 0 then v0.store else v0.store[start' := room])
    && (start' != 0 ==> start' in v.store && v.store[start'] == room)
  }

  /** A write ending at `end` has happened to the grown object; no other object has changed. */
  ghost predicate WriteGrew(v0: Vol, start: nat, size: nat, start': nat, offset: nat, data: seq<byte>, v: Vol)
    requires v0.cs > 0 && v0.max < |v0.fat|
  {
    var end := offset + |data|;
    var room := RoomFor(v0, start, size, end);
    && end <= |room| && ChainGrew(v0, start, size, start', end, v.l.chains)
    && v.store == (if start' == 0 then v0.store
                   else v0.store[start' := if data == [] then room else Splice(room, offset, data)])
  }

  /** The grown object has room for the write. */
  lemma GrownRoom(v0: Vol, start: nat, size: nat, start': nat, extra: seq<nat>, end: nat, v: Vol)
    requires v0.cs > 0 && 0 !in v0.store && v0.max < |v0.fat| && (start == 0 <==> size == 0)
      && (start != 0 ==> start in v0.store)
    requires |ObjectAt(v0.store, start)| == Whole(size, v0.cs)
    requires Reached(v0, start, start', extra, v) && v0.l.chains.Keys == v0.store.Keys
    requires |extra| == Missing(size, end, v0.cs)
    ensures RoomMade(v0, start, size, start', end, v)
  {
    MissingFills(size, end, v0.cs);
    WholeBounds(size, v0.cs);
    WholeBounds(end, v0.cs);
    ZeroPadLen(|extra|, v0.cs);
    hide Missing, Whole, ZeroPad;
    if extra == [] {
      ZeroPadStep(0, v0.cs);
      assert ObjectAt(v0.store, start) + [] == ObjectAt(v0.store, start);
      hide Extended;
      if start != 0 { assert v0.store[start := v0.store[start]] == v0.store; }
    } else {
      LowestFreeMeaning(v0.fat, ROOT, v0.max, |extra|);
      assert extra[0] in extra;
    }
  }

  /** A chain grows at the cost of just as many free clusters. */
  lemma GrewCount(v0: Vol, start: nat, size: nat, start': nat, end: nat, v: Vol)
    requires VolOk(v0) && VolOk(v) && v.max == v0.max && v0.max < |v0.fat| && v.max < |v.fat|
    requires ChainGrew(v0, start, size, start', end, v.l.chains)
    requires start == 0 || start in v0.l.chains
    requires Missing(size, end, v0.cs) <= |FreeSet(v0.fat, v0.max)|
    ensures |FreeSet(v.fat, v.max)| + Missing(size, end, v0.cs) == |FreeSet(v0.fat, v0.max)|
  {
    hide FreeSet, Missing, LowestFree, FatOk, Holds, ClustersOk, RoomFor, Reserved, FatsOnDisk, BootOnDisk;
    if start != 0 { VolChain(v0, start); }
    Conservation(v0.fat, v0.max, v0.l);
    Conservation(v.fat, v.max, v.l);
    LowestFreeCount(v0.fat, v0.max, Missing(size, end, v0.cs));
    NoObjectZero(v0);
    if Missing(size, end, v0.cs) != 0 {
      ChainTotalPut(v0.l.chains, start', v.l.chains[start'], v0.max + 1);
    }
  }

  /** A directory grows by one cluster. */
  lemma ExtendedCount(v0: Vol, d: nat, v: Vol)
    requires VolOk(v0) && VolOk(v) && v.max == v0.max && v0.max < |v0.fat| && v.max < |v.fat|
    requires d in v0.l.chains && |FreeSet(v0.fat, v0.max)| >= 1
    requires Extended(v0, d, d, LowestFree(v0.fat, ROOT, v0.max, 1), v)
    ensures |FreeSet(v.fat, v.max)| + 1 == |FreeSet(v0.fat, v0.max)|
  {
    hide FreeSet, LowestFree, FatOk, Holds, ClustersOk, Reserved, FatsOnDisk, BootOnDisk, Fresh;
    VolChain(v0, d);
    LowestFreeCount(v0.fat, v0.max, 1);
    Conservation(v0.fat, v0.max, v0.l);
    Conservation(v.fat, v.max, v.l);
    ChainTotalPut(v0.l.chains, d, v.l.chains[d], v0.max + 1);
  }

  /** Trimming a chain gives back just what was cut off. */
  lemma TrimCount(v0: Vol, start: nat, keep: nat, v: Vol)
    requires VolOk(v0) && VolOk(v) && v.max == v0.max && v0.max < |v0.fat| && v.max < |v.fat|
    requires start in v0.l.chains && keep <= |v0.l.chains[start]|
    requires v.l.chains == TrimmedChains(v0.l.chains, start, keep)
    ensures |FreeSet(v.fat, v.max)| == |FreeSet(v0.fat, v0.max)| + |v0.l.chains[start]| - keep
  {
    hide FreeSet, FatOk, Holds, ClustersOk, Reserved, FatsOnDisk, BootOnDisk;
    VolChain(v0, start);
    Conservation(v0.fat, v0.max, v0.l);
    Conservation(v.fat, v.max, v.l);
    ChainTotalPut(v0.l.chains, start, v0.l.chains[start][..keep], v0.max + 1);
    ChainTotalDrop(v0.l.chains, start, v0.max + 1);
  }

  /** The state that trimming object `start'` to `keep` clusters restores. */
  ghost predicate Restores(v0: Vol, start: nat, start': nat, v: Vol)
  {
    && start' in v.l.chains && start' != 0
    && TrimmedFat(v.fat, v.l.chains[start'], |ChainAt(v0.l, start)|) == v0.fat
    && TrimmedChains(v.l.chains, start', |ChainAt(v0.l, start)|) == v0.l.chains
    && (|ChainAt(v0.l, start)| > 0 ==> start' == start)
    && forall s :: s in v0.l.chains && s != start ==>
      s in v0.store && s in v.store && s != start' && v.store[s] == v0.store[s]
  }

  /** Of object `s` only bytes in `[lo..hi]` have changed, of `d` only bytes in `[dlo..dhi]`, of others none. */
  ghost predicate OnlyBytes(store0: Store, store: Store, s: nat, lo: nat, hi: nat, d: nat, dlo: nat, dhi: nat)
  {
    && store.Keys == store0.Keys && (forall o :: o in store && o != s && o != d ==> store[o] == store0[o])
    && SameOutside(ObjectAt(store0, s), ObjectAt(store, s), lo, hi)
    && SameOutside(ObjectAt(store0, d), ObjectAt(store, d), dlo, dhi)
  }

  /** A write to the grown object that failed, once the object is cut back. */
  lemma CutBackBytes(v0: Vol, start: nat, start': nat, extra: seq<nat>, v: Vol, torn: seq<byte>, cut: seq<byte>,
    lo: nat,
                     hi: nat)
    requires Reached(v0, start, start', extra, v) && start in v0.store && start' in v.store && start != 0
    requires SameOutside(v.store[start'], torn, lo, hi) && cut <= torn && |cut| == |v0.store[start]|
    ensures SameOutside(v0.store[start], cut, lo, hi)
  {
    hide LowestFree;
    assert v0.store[start] <= v.store[start'];
  }

  lemma ReachedSize(v0: Vol, start: nat, start': nat, extra: seq<nat>, v: Vol)
    requires Reached(v0, start, start', extra, v)
    ensures v.cs == v0.cs
  {
  }

  lemma NothingChanged(store: Store, s: nat, lo: nat, hi: nat)
    ensures OnlyBytes(store, store, s, lo, hi, 0, 0, 0)
  {
  }

  /** What happens meanwhile to the grown object and to another object `d` does not matter. */
  lemma RestoresStill(v0: Vol, start: nat, start': nat, v: Vol, d: nat, v': Vol)
    requires Restores(v0, start, start', v) && d in v0.l.chains && d != start && d in v'.store
    requires v'.fat == v.fat && v'.l == v.l && v'.store.Keys == v.store.Keys
    requires forall s :: s in v'.store && s != start' && s != d ==> v'.store[s] == v.store[s]
    ensures Restores(v0.(store := v0.store[d := v'.store[d]]), start, start', v')
  {
    hide TrimmedFat, TrimmedChains, ChainAt;
  }

  lemma RestoresAgain(v0: Vol, start: nat, start': nat, v: Vol, v': Vol)
    requires Restores(v0, start, start', v)
    requires v'.fat == v.fat && v'.l == v.l && v'.store.Keys == v.store.Keys
    requires forall s :: s in v'.store && s != start' ==> v'.store[s] == v.store[s]
    ensures Restores(v0, start, start', v')
  {
    hide TrimmedFat, TrimmedChains, ChainAt;
  }

  /** What was reached is undone by trimming to the old length, whatever the object holds by then. */
  lemma UndoReached(v0: Vol, start: nat, start': nat, extra: seq<nat>, v: Vol)
    requires VolOk(v0) && (start == 0 || start in v0.l.chains) && start' != 0
    requires Reached(v0, start, start', extra, v) && v.store.Keys == v.l.chains.Keys
    ensures Restores(v0, start, start', v)
  {
    if extra == [] {
      IdleRestores(v0, start, v);
    } else {
      ExtendedRestores(v0, start, start', extra, v);
    }
  }

  lemma IdleRestores(v0: Vol, start: nat, v: Vol)
    requires VolOk(v0) && start in v0.l.chains && v.fat == v0.fat && v.l == v0.l && v.store == v0.store
    ensures Restores(v0, start, start, v)
  {
    hide VolOk, TrimmedFat, TrimmedChains;
    NoObjectZero(v0);
    VolChain(v0, start);
    WholeChain(v0.fat, v0.l.chains, start);
  }

  lemma WholeChain(fat: Fat, chains: map<nat, seq<nat>>, s: nat)
    requires s in chains && chains[s] != []
    ensures TrimmedFat(fat, chains[s], |chains[s]|) == fat && TrimmedChains(chains, s, |chains[s]|) == chains
  {
  }

  lemma ExtendedRestores(v0: Vol, start: nat, start': nat, extra: seq<nat>, v: Vol)
    requires VolOk(v0) && (start == 0 || start in v0.l.chains) && extra != []
    requires Extended(v0, start, start', extra, v) && v.store.Keys == v.l.chains.Keys
    requires v0.max < |v0.fat| && extra == LowestFree(v0.fat, ROOT, v0.max, |extra|)
    ensures Restores(v0, start, start', v)
  {
    hide VolOk, TrimmedFat, TrimmedChains, LowestFree, ZeroPad;
    NoObjectZero(v0);
    if start != 0 { VolChain(v0, start); }
    RollBack(v0, start, start', extra, v);
    assert extra[0] in extra;
  }

  /** Trimming an extended object back to its old length restores the table and every other object. */
  lemma RollBack(v0: Vol, start: nat, start': nat, extra: seq<nat>, v: Vol)
    requires VolOk(v0) && (start == 0 || start in v0.l.chains)
    requires Extended(v0, start, start', extra, v) && v.store.Keys == v.l.chains.Keys
    requires v0.max < |v0.fat| && extra == LowestFree(v0.fat, ROOT, v0.max, |extra|)
    ensures var ch := ChainAt(v0.l, start);
      && start' in v.l.chains && start' != 0 && v.l.chains[start'] == ch + extra
      && TrimmedFat(v.fat, ch + extra, |ch|) == v0.fat
      && TrimmedChains(v.l.chains, start', |ch|) == v0.l.chains
  {
    hide VolOk, LowestFree, TrimmedFat, TrimmedChains, WalkFrom, Oks, ZeroPad;
    var ch := ChainAt(v0.l, start);
    NoObjectZero(v0);
    LowestFreeMeaning(v0.fat, ROOT, v0.max, |extra|);
    if start != 0 { VolChain(v0, start); }
    if start == 0 { assert extra[0] in extra; }
    UnlinkFat(v0.fat, v.fat, ch, extra);
    assert (ch + extra)[..|ch|] == ch;
    UnlinkChains(v0.l.chains, v.l.chains, start, start', ch, extra);
  }

  lemma UnlinkFat(fat: Fat, fat': Fat, ch: seq<nat>, extra: seq<nat>)
    requires |fat| == |fat'| && extra != []
    requires forall i :: 0 <= i < |extra| ==> extra[i] < |fat| && fat[extra[i]] == Free
    requires ch != [] ==> Last(ch) < |fat| && fat[Last(ch)] == EndOfChain
    requires forall c :: 0 <= c < |fat| && c !in extra && (ch == [] || c != Last(ch)) ==> fat'[c] == fat[c]
    ensures TrimmedFat(fat', ch + extra, |ch|) == fat
  {
    assert (ch + extra)[|ch|..] == extra;
  }

  lemma UnlinkChains(chains: map<nat, seq<nat>>, chains': map<nat, seq<nat>>, start: nat, start': nat, ch: seq<nat>,
    extra: seq<nat>)
    requires chains' == chains[start' := ch + extra] && extra != [] && (ch + extra)[..|ch|] == ch
    requires if start in chains then start' == start && ch == chains[start] && ch != []
      else ch == [] && start' !in chains
    ensures start' in chains' && TrimmedChains(chains', start', |ch|) == chains
  {
  }

  /** Ending a chain where it already ends changes nothing. */
  lemma EndIsEnd(fat: Fat, max: nat, l: Layout, s: nat)
    requires FatOk(fat, max, l) && s in l.chains
    ensures l.chains[s] != [] && Last(l.chains[s]) <= max && fat[Last(l.chains[s])] == EndOfChain
  {
    ChainOf(fat, max, l, s);
    assert Link(fat, l.chains[s], |l.chains[s]| - 1);
  }

  lemma SoundIsEncodable(fat: Fat, max: nat, l: Layout)
    requires FatOk(fat, max, l) && Reserved(fat, max)
    ensures forall i :: 0 <= i < |fat| ==> Encodable(fat[i])
  {
    forall c | 2 <= c <= max ensures Encodable(fat[c]) {
      if fat[c] != Free {
        assert OwnedAt(max, l, c);
        var ch := l.chains[l.own[c]];
        var i :| 0 <= i < |ch| && ch[i] == c;
        assert ChainOk(fat, max, l.own[c], ch);
        assert Link(fat, ch, i);
      }
    }
  }

  // --- formatting ------------------------------------------------------------------------------------

  /** The table of a new file system: two reserved entries and a root directory of one cluster. */
  function FormattedFat(n: nat): Fat
    requires n > ROOT
  {
    seq(n, _ => Free)[0 := EndOfChain][1 := EndOfChain][ROOT := EndOfChain]
  }

  function FormattedLayout(): Layout { Layout(map[ROOT := [ROOT]], map[ROOT := ROOT]) }

  lemma FormattedFatOk(n: nat, max: nat)
    requires ROOT <= max < n && max < 0xFFFF
    ensures FatOk(FormattedFat(n), max, FormattedLayout()) && Reserved(FormattedFat(n), max)
    ensures |FreeSet(FormattedFat(n), max)| == max - 2
  {
    var fat, l := FormattedFat(n), FormattedLayout();
    assert Link(fat, [ROOT], 0);
    assert ChainOk(fat, max, ROOT, [ROOT]);
    assert FatOk(fat, max, l);
    Conservation(fat, max, l);
    OneChain(max + 1);
  }

  lemma {:induction false} OneChain(n: nat)
    ensures ChainTotal(FormattedLayout().chains, n) == if n > ROOT then 1 else 0
  {
    if n > 0 { OneChain(n - 1); }
  }

  /** A boot block in front, a fresh table, a zeroed root cluster: a sound volume. */
  lemma FormattedOk(v: Vol)
    requires ROOT <= v.max < |v.fat| && v.max < 0xFFFF && v.cs >= FCB_SIZE && ClustersOk(v.cl, v.max, v.cs)
    requires v.fat == FormattedFat(|v.fat|) && v.l == FormattedLayout() && v.store == map[ROOT := Zeros(v.cs)]
    requires v.cl[ROOT] == Zeros(v.cs) && BootOnDisk(v.b, v.md) && v.dirty
    ensures VolOk(v)
  {
    hide FatOk, Reserved, Stream, Zeros, FormattedFat;
    FormattedFatOk(|v.fat|, v.max);
    StreamOne(v.cl, ROOT);
  }

  /** The boot block as it is written. */
  lemma BootWritten(b: BootSector, block: seq<byte>, rest: seq<byte>)
    requires block == EncodeBoot(b) + rest
    ensures block[..BOOT_SIZE] == EncodeBoot(b)
  {
  }

  // --- flushing -------------------------------------------------------------------------------------

  lemma EncodeFatStep(fat: Fat, k: nat)
    requires k < |fat|
    ensures EncodeFat(fat[..k + 1]) == EncodeFat(fat[..k]) + EncodeU16(EncodeEntry(fat[k]))
  {
  }

  /** Writing one FAT copy changes neither clusters nor the boot block nor the other copy. */
  lemma FlushFrame(b: BootSector, disk: Disk, disk': Disk, copy: nat)
    requires BootOk(b) && DiskOk(b, disk) && DiskOk(b, disk') && |disk'| == |disk| && copy < 2
    requires forall p :: 0 <= p < |disk| && !(FatStart(b, copy) <= p < FatStart(b, copy) + b.fatBlockCount) ==>
      disk'[p] == disk[p]
    ensures ClustersOf(b, disk') == ClustersOf(b, disk)
    ensures BootOnDisk(b, Meta(b, disk)) ==> BootOnDisk(b, Meta(b, disk'))
    ensures forall k :: 0 <= k < 2 && k != copy ==>
      FatRegionBytes(b, Meta(b, disk'), k) == FatRegionBytes(b, Meta(b, disk), k)
  {
    assert FatStart(b, copy) + b.fatBlockCount <= b.dataStartBlock;
    forall c | ROOT <= c <= MaxCluster(b) ensures ClusterBytes(b, disk', c) == ClusterBytes(b, disk, c) {
      ClusterInside(b, c);
      hide FirstBlock, MaxCluster, BootOk;
      StreamFrame(disk, disk', Run(FirstBlock(b, c), b.blocksPerCluster));
    }
    forall k | 0 <= k < 2 && k != copy
      ensures FatRegionBytes(b, Meta(b, disk'), k) == FatRegionBytes(b, Meta(b, disk), k)
    {
      StreamFrame(Meta(b, disk), Meta(b, disk'), Run(FatStart(b, k), b.fatBlockCount));
    }
    hide Stream;
  }

  /** The blocks just written are the FAT copy. */
  lemma FlushedRegion(b: BootSector, disk: Disk, copy: nat, bytes: seq<byte>)
    requires BootOk(b) && DiskOk(b, disk) && copy < 2 && |bytes| == b.fatBlockCount * b.blockSize
    requires forall p :: FatStart(b, copy) <= p < FatStart(b, copy) + b.fatBlockCount ==>
      p < |disk| && disk[p] == Chunk(bytes, p - FatStart(b, copy), b.blockSize)
    ensures FatRegionBytes(b, Meta(b, disk), copy) == bytes
  {
    hide Stream, Chunk, Run;
    var first := FatStart(b, copy);
    var run := Run(first, b.fatBlockCount);
    RunAt(first, b.fatBlockCount);
    assert first + b.fatBlockCount <= b.dataStartBlock;
    forall j | 0 <= j < |run| ensures At(Meta(b, disk), run[j]) == Chunk(bytes, j, b.blockSize) {
      assert first + j < |disk| && disk[first + j] == Chunk(bytes, first + j - first, b.blockSize);
    }
    StreamByParts(Meta(b, disk), run, b.blockSize, bytes);
  }

  // --- mounting -------------------------------------------------------------------------------------

  /** The boot sectors that formatting writes. */
  predicate Mountable(b: BootSector)
  {
    var cfg := FsConfig(b.blockSize, b.blockCount, b.blocksPerCluster);
    Validate(cfg).Pass? && b == BootOf(cfg)
  }

  lemma FormattedIsMountable(cfg: FsConfig)
    requires Validate(cfg).Pass?
    ensures Mountable(BootOf(cfg)) && BootOk(BootOf(cfg)) && ClusterSize(BootOf(cfg)) >= FCB_SIZE
    ensures BootOf(cfg).blockSize == cfg.blockSize && BootOf(cfg).blockCount == cfg.blockCount
  {
    BootFields(cfg);
    hide Validate, FatBlockCount;
  }

  function ValidateBoot(blockSize: nat, blockCount: nat, b: BootSector): Outcome
  {
    if b.blockSize != blockSize then Fail(CorruptFs(BadBootSector))
    else if b.blockCount > blockCount then Fail(CorruptFs(BadBootSector))
    else
      var valid := Validate(FsConfig(b.blockSize, b.blockCount, b.blocksPerCluster));
      if valid.Fail? then valid
      else if b.fatBlockCount != FatBlockCount(b.blockSize, b.blockCount, b.fatCopies, b.blocksPerCluster) then
        Fail(CorruptFs(BadBootSector))
      else if b.fatStartBlock != 1 then Fail(CorruptFs(BadBootSector))
      else if b.dataStartBlock != 1 + b.fatCopies * b.fatBlockCount then Fail(CorruptFs(BadBootSector))
      else if b.rootDirStartCluster != ROOT then Fail(CorruptFs(BadBootSector))
      else Pass
  }

  /** With two FAT copies, mounting accepts exactly what formatting writes (and the device can hold). */
  lemma ValidateBootIff(blockSize: nat, blockCount: nat, b: BootSector)
    requires b.fatCopies == 2
    ensures ValidateBoot(blockSize, blockCount, b).Pass? <==>
      b.blockSize == blockSize && b.blockCount <= blockCount && Mountable(b)
    ensures var checked, cfg := ValidateBoot(blockSize, blockCount, b),
        FsConfig(b.blockSize, b.blockCount, b.blocksPerCluster);
      checked.Fail? ==>
        if b.blockSize == blockSize && b.blockCount <= blockCount && Validate(cfg).Fail? then
          checked.error == InvalidConfig
        else checked.error == CorruptFs(BadBootSector)
  {
    hide FatBlockCount, IsPow2, BootOk, Validate;
    ValidateError(FsConfig(b.blockSize, b.blockCount, b.blocksPerCluster));
  }

  /** What mounting a disk yields. */
  function Mount(disk: Disk, blockSize: nat): Result<(BootSector, Fat)>
    requires blockSize >= BOOT_SIZE && |disk| > 0
    requires forall i :: 0 <= i < |disk| ==> |disk[i]| == blockSize
  {
    var b := DecodeBoot(disk[0][..BOOT_SIZE]);
    var valid := ValidateBoot(blockSize, |disk|, b);
    if valid.Fail? then Failure(valid.error)
    else Success((b, DecodeFat(FatRegionBytes(b, disk, 0))))
  }

  /** Mounting a disk that holds a formatted boot sector and a flushed table gives both back. */
  lemma MountFlushed(b: BootSector, disk: Disk, fat: Fat, l: Layout)
    requires Mountable(b) && BootOk(b) && DiskOk(b, disk)
    requires BootOnDisk(b, Meta(b, disk)) && FatsOnDisk(b, Meta(b, disk), fat)
    requires FatOk(fat, MaxCluster(b), l) && Reserved(fat, MaxCluster(b))
    ensures Mount(disk, b.blockSize) == Success((b, fat))
  {
    var meta := Meta(b, disk);
    assert meta[0] == disk[0];
    BootRoundTrip(b);
    ValidateBootIff(b.blockSize, |disk|, b);
    StreamFrame(meta, disk, Run(FatStart(b, 0), b.fatBlockCount));
    SoundIsEncodable(fat, MaxCluster(b), l);
    FatRoundTrip(fat);
    hide FatOk, Validate, ValidateBoot, Stream, EncodeFat, DecodeFat, Reserved;
    assert FatRegionBytes(b, meta, 0) == EncodeFat(fat);
  }

  lemma MountableFits(b: BootSector)
    requires Mountable(b)
    ensures BootOk(b) && ROOT <= MaxCluster(b) < 0xFFFF && MaxCluster(b) < FatLen(b) && ClusterSize(b) >= FCB_SIZE
    ensures b.blockSize >= BOOT_SIZE && b.fatCopies == 2
  {
    var cfg := FsConfig(b.blockSize, b.blockCount, b.blocksPerCluster);
    FormattedIsMountable(cfg);
    ClusterIdBounds(b);
    hide Validate, FatBlockCount, BootOf, MaxCluster, ClusterSize, FatLen;
  }

  lemma DecodedLen(b: BootSector, disk: Disk)
    requires BootOk(b) && DiskOk(b, disk)
    ensures |DecodeFat(FatRegionBytes(b, disk, 0))| == FatLen(b)
  {
    hide Stream, BootOk;
    FatBlocksInside(b, disk);
    RunAt(FatStart(b, 0), b.fatBlockCount);
    hide Run;
    StreamLen(disk, Run(FatStart(b, 0), b.fatBlockCount), b.blockSize);
    ClusterIdBounds(b);
    assert b.fatBlockCount * b.blockSize == b.blockSize * b.fatBlockCount;
  }

  lemma FatBlocksInside(b: BootSector, disk: Disk)
    requires BootOk(b) && DiskOk(b, disk)
    ensures FatStart(b, 0) == 1 && FatStart(b, 0) + b.fatBlockCount <= |disk|
  {
  }

  /** The boot sector that mounting decodes is the one that formatting encoded. */
  lemma FlushedBoot(b: BootSector, disk: Disk)
    requires BootOk(b) && DiskOk(b, disk) && BootOnDisk(b, Meta(b, disk))
    ensures |disk| > 0 && |disk[0]| >= BOOT_SIZE && DecodeBoot(disk[0][..BOOT_SIZE]) == b
  {
    BootRoundTrip(b);
    assert Meta(b, disk)[0] == disk[0];
    hide DecodeBoot, EncodeBoot;
  }
}
