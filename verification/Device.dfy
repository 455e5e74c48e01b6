/**
 Block devices: a RAM-backed physical device and the adapter that groups physical blocks into the
 logical blocks the file system works on.
 */
module Device {
  import opened Base
  import opened Streams

  /** RAM-backed device. `faults` bounds how many more writes the environment may make fail. */
  class MemoryBackend {
    const blockSize: nat
    var blocks: seq<seq<byte>>
    var faults: nat

    ghost predicate Valid()
      reads this
    {
      forall i :: 0 <= i < |blocks| ==> |blocks[i]| == blockSize
    }

    constructor (blockSize: nat, blockCount: nat, faults: nat)
      ensures Valid()
      ensures this.blockSize == blockSize && this.faults == faults
      ensures blocks == seq(blockCount, _ => Zeros(blockSize))
    {
      this.blockSize := blockSize;
      this.faults := faults;
      blocks := seq(blockCount, _ => Zeros(blockSize));
    }

    /** Copies block `index` over `dst[lo..hi]`. */
    method ReadPhysicalBlock(index: nat, dst: array<byte>, lo: nat, hi: nat) returns (r: Outcome)
      requires Valid() && lo <= hi <= dst.Length
      modifies dst
      ensures r.Pass? <==> hi - lo == blockSize && index < |blocks|
      ensures r.Fail? ==> r.error == InvalidConfig && dst[..] == old(dst[..])
      ensures r.Pass? ==> dst[..] == old(dst[..])[..lo] + blocks[index] + old(dst[..])[hi..]
    {
      if hi - lo != blockSize || index >= |blocks| {
        return Fail(InvalidConfig);
      }
      var block := blocks[index];
      forall i | 0 <= i < blockSize {
        dst[lo + i] := block[i];
      }
      assert dst[..] == old(dst[..])[..lo] + blocks[index] + old(dst[..])[hi..];
      return Pass;
    }

    method WritePhysicalBlock(index: nat, src: seq<byte>) returns (r: Outcome)
      requires Valid()
      modifies this
      ensures Valid() && |blocks| == |old(blocks)|
      ensures r.Pass? ==> |src| == blockSize && index < |blocks|
                          && blocks == old(blocks)[index := src] && faults == old(faults)
      ensures r.Fail? ==> blocks == old(blocks)
      ensures r.Fail? && r.error != DeviceFault ==>
        r.error == InvalidConfig && faults == old(faults) && (|src| != blockSize || index >= |blocks|)
      ensures r.Fail? && r.error == DeviceFault ==> old(faults) > 0 && faults == old(faults) - 1
    {
      if |src| != blockSize || index >= |blocks| {
        return Fail(InvalidConfig);
      }
      var broken: bool := *;
      if faults > 0 && broken {
        faults := faults - 1;
        return Fail(DeviceFault);
      }
      blocks := blocks[index := src];
      return Pass;
    }
  }

  /** Logical blocks of `k` physical blocks each. */
  ghost function LogicalView(blocks: seq<seq<byte>>, k: nat): seq<seq<byte>>
    requires k > 0
  {
    seq(|blocks| / k, i requires 0 <= i < |blocks| / k => Stream(blocks, Run(i * k, k)))
  }

  lemma ViewAt(blocks: seq<seq<byte>>, k: nat, i: nat)
    requires k > 0 && i < |blocks| / k
    ensures |LogicalView(blocks, k)| == |blocks| / k
    ensures LogicalView(blocks, k)[i] == Stream(blocks, Run(i * k, k))
  {
  }

  /** Physical blocks of different logical blocks are different. */
  lemma RunInside(i: nat, k: nat, n: nat)
    requires k > 0 && i < n / k
    ensures i * k + k <= n
  {
    assert n == n / k * k + n % k;
    MulOrder(i, n / k, k);
  }

  /** Changing physical blocks inside one logical block leaves the other logical blocks alone. */
  lemma ViewFrame(blocks: seq<seq<byte>>, blocks': seq<seq<byte>>, k: nat, i: nat)
    requires k > 0 && |blocks| == |blocks'| && i < |blocks| / k
    requires forall p :: 0 <= p < |blocks| && !(i * k <= p < i * k + k) ==> blocks[p] == blocks'[p]
    ensures |LogicalView(blocks', k)| == |LogicalView(blocks, k)|
    ensures forall j :: 0 <= j < |blocks| / k && j != i ==> LogicalView(blocks', k)[j] == LogicalView(blocks, k)[j]
  {
    forall j | 0 <= j < |blocks| / k && j != i
      ensures Stream(blocks', Run(j * k, k)) == Stream(blocks, Run(j * k, k))
    {
      RunInside(j, k, |blocks|);
      if j < i { MulOrder(j, i, k); } else { MulOrder(i, j, k); }
      StreamFrame(blocks, blocks', Run(j * k, k));
    }
  }

  class LogicalBlockDevice {
    const inner: MemoryBackend
    const blockSize: nat
    const blockCount: nat
    const k: nat

    ghost predicate Valid()
      reads inner
    {
      && inner.Valid() && inner.blockSize > 0 && k > 0
      && blockSize == k * inner.blockSize
      && |inner.blocks| == blockCount * k
    }

    /** The contents as the file system sees them. */
    ghost function Disk(): (d: seq<seq<byte>>)
      requires Valid()
      reads inner
      ensures |d| == blockCount
      ensures forall i :: 0 <= i < |d| ==> |d[i]| == blockSize
    {
      DivModUnique(|inner.blocks|, k, blockCount, 0);
      var d := LogicalView(inner.blocks, k);
      assert forall i :: 0 <= i < |d| ==> |d[i]| == blockSize by {
        forall i | 0 <= i < |d| ensures |d[i]| == blockSize {
          RunInside(i, k, |inner.blocks|);
          StreamLen(inner.blocks, Run(i * k, k), inner.blockSize);
        }
      }
      d
    }

    constructor Raw(inner: MemoryBackend, blockSize: nat, blockCount: nat, k: nat)
      requires inner.Valid() && inner.blockSize > 0 && k > 0
      requires blockSize == k * inner.blockSize && |inner.blocks| == blockCount * k
      ensures Valid() && this.inner == inner && this.blockSize == blockSize
      ensures this.blockCount == blockCount && this.k == k
    {
      this.inner := inner;
      this.blockSize := blockSize;
      this.blockCount := blockCount;
      this.k := k;
    }

    /** Accepts exactly the block sizes that divide into whole physical blocks without a rest. */
    static method New(inner: MemoryBackend, logicalBlockSize: nat) returns (r: Result<LogicalBlockDevice>)
      requires inner.Valid() && inner.blockSize > 0
      ensures r.Success? <==>
        logicalBlockSize >= inner.blockSize && logicalBlockSize % inner.blockSize == 0
        && |inner.blocks| % (logicalBlockSize / inner.blockSize) == 0
      ensures r.Success? ==>
        fresh(r.value) && r.value.Valid() && r.value.inner == inner && r.value.blockSize == logicalBlockSize
        && r.value.blockCount == |inner.blocks| / (logicalBlockSize / inner.blockSize)
      ensures r.Failure? ==> r.error == InvalidConfig
    {
      var physical := inner.blockSize;
      DivMono(physical, logicalBlockSize + physical, physical);
      if logicalBlockSize < physical || logicalBlockSize % physical != 0 {
        return Failure(InvalidConfig);
      }
      var k := logicalBlockSize / physical;
      if |inner.blocks| % k != 0 {
        return Failure(InvalidConfig);
      }
      var d := new LogicalBlockDevice.Raw(inner, logicalBlockSize, |inner.blocks| / k, k);
      return Success(d);
    }

    method ReadBlockInto(index: nat, dst: array<byte>) returns (r: Outcome)
      requires Valid()
      modifies dst
      ensures r.Pass? <==> dst.Length == blockSize && index < blockCount
      ensures r.Fail? ==> r.error == InvalidConfig
      ensures r.Pass? ==> dst[..] == Disk()[index]
    {
      if dst.Length != blockSize || index >= blockCount {
        return Fail(InvalidConfig);
      }
      var first, size := BlockPlace(index);
      hide LogicalView, Stream, Run, Edge;
      ghost var run := Run(first, k);
      RunAt(first, k);
      EdgeSteps(0, k, size);
      assert Stream(inner.blocks, []) == [] by { StreamLen(inner.blocks, [], 0); }
      var offset, lo := 0, 0;
      while offset < k
        invariant 0 <= offset <= k && lo == Edge(offset, size) && lo <= dst.Length == Edge(k, size)
        invariant dst[..lo] == Stream(inner.blocks, run[..offset])
      {
        EdgeSteps(offset, k, size);
        ghost var before := dst[..];
        var step := inner.ReadPhysicalBlock(first + offset, dst, lo, lo + size);
        ReadStep(inner.blocks, run, offset, before[..lo], before[lo + size..]);
        assert dst[..lo + size] == dst[..][..lo + size];
        offset, lo := offset + 1, lo + size;
      }
      assert run[..k] == run && dst[..lo] == dst[..];
      return Pass;
    }

    lemma ReadStep(blocks: seq<seq<byte>>, run: seq<nat>, offset: nat, done: seq<byte>, rest: seq<byte>)
      requires offset < |run| && run[offset] < |blocks| && done == Stream(blocks, run[..offset])
      ensures var block := blocks[run[offset]];
        (done + block + rest)[..|done| + |block|] == Stream(blocks, run[..offset + 1])
    {
      StreamSnoc(blocks, run[..offset], run[offset]);
      assert run[..offset + 1] == run[..offset] + [run[offset]];
      hide Stream;
    }

    /** First physical block of a logical block, and the size of a physical block. */
    method BlockPlace(index: nat) returns (first: nat, size: nat)
      requires Valid() && index < blockCount
      ensures size == inner.blockSize && Edge(k, size) == blockSize && first + k <= |inner.blocks| && first == index * k
      ensures Disk()[index] == Stream(inner.blocks, Run(first, k))
    {
      first := index * k;
      size := inner.blockSize;
      DivModUnique(|inner.blocks|, k, blockCount, 0);
      RunInside(index, k, |inner.blocks|);
    }

    /** A logical block of which the first `n` physical ones have been rewritten. */
    lemma BlockTorn(blocks: seq<seq<byte>>, blocks': seq<seq<byte>>, first: nat, k: nat, size: nat, n: nat,
      src: seq<byte>)
      requires first + k <= |blocks| == |blocks'| && n <= k && |src| == k * size
      requires forall p :: first <= p < first + k ==> |blocks[p]| == size
      requires forall p :: first <= p < first + n ==> blocks'[p] == Chunk(src, p - first, size)
      requires forall p :: first + n <= p < first + k ==> blocks'[p] == blocks[p]
      ensures Torn(Stream(blocks, Run(first, k)), src, Stream(blocks', Run(first, k)))
    {
      hide Stream, Chunk, Run, Torn;
      var run := Run(first, k);
      RunAt(first, k);
      var a := Stream(blocks, run);
      StreamLen(blocks, run, size);
      forall j | 0 <= j < k ensures Torn(Chunk(a, j, size), Chunk(src, j, size), At(blocks', run[j])) {
        ChunkOfStream(blocks, run, j, size);
        ChunkLen(src, j, k, size);
        TornEnds(Chunk(a, j, size), Chunk(src, j, size));
        assert run[j] == first + j && (j < n ==> blocks'[first + j] == Chunk(src, first + j - first, size));
      }
      StreamTorn(blocks', run, size, a, src);
    }

    method WriteBlockFrom(index: nat, src: seq<byte>) returns (r: Outcome)
      requires Valid()
      modifies inner
      ensures Valid()
      ensures r.Pass? ==> |src| == blockSize && index < blockCount
                          && Disk() == old(Disk())[index := src] && inner.faults == old(inner.faults)
      ensures r.Fail? && r.error != DeviceFault ==>
        r.error == InvalidConfig && Disk() == old(Disk()) && inner.faults == old(inner.faults)
        && (|src| != blockSize || index >= blockCount)
      ensures r.Fail? && r.error == DeviceFault ==>
        old(inner.faults) > 0 && inner.faults == old(inner.faults) - 1 && index < blockCount
        && Torn(old(Disk())[index], src, Disk()[index])
        && forall i :: 0 <= i < blockCount && i != index ==> Disk()[i] == old(Disk())[i]
    {
      hide LogicalView, Stream, Chunk;
      if |src| != blockSize || index >= blockCount {
        return Fail(InvalidConfig);
      }
      var first, size := BlockPlace(index);
      DivModUnique(|inner.blocks|, k, blockCount, 0);
      var offset := 0;
      while offset < k
        invariant 0 <= offset <= k
        invariant Valid() && inner.faults == old(inner.faults)
        invariant forall p :: 0 <= p < |inner.blocks| && !(first <= p < first + k) ==>
          inner.blocks[p] == old(inner.blocks)[p]
        invariant forall p :: first <= p < first + offset ==> inner.blocks[p] == Chunk(src, p - first, size)
        invariant forall p :: first + offset <= p < first + k ==> inner.blocks[p] == old(inner.blocks)[p]
      {
        EdgeSteps(offset, k, size);
        ChunkLen(src, offset, k, size);
        var step := inner.WritePhysicalBlock(first + offset, Chunk(src, offset, size));
        if step.Fail? {
          ViewFrame(old(inner.blocks), inner.blocks, k, index);
          BlockTorn(old(inner.blocks), inner.blocks, first, k, size, offset, src);
          ViewAt(old(inner.blocks), k, index);
          ViewAt(inner.blocks, k, index);
          return step;
        }
        offset := offset + 1;
      }
      ViewFrame(old(inner.blocks), inner.blocks, k, index);
      StreamByParts(inner.blocks, Run(first, k), size, src);
      ViewAt(inner.blocks, k, index);
      assert Disk() == old(Disk())[index := src];
      return Pass;
    }
  }
}
