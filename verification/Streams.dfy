/** The virtual byte stream of a cluster chain: the concatenation of its clusters. */
module Streams {
  import opened Base

  /** Cluster contents by cluster id; ids outside the table read as empty. */
  type Clusters = seq<seq<byte>>

  function Zeros(n: nat): seq<byte> { seq(n, _ => 0) }

  lemma ZerosLen(n: nat)
    ensures |Zeros(n)| == n
  {
  }

  /** The bytes of `n` fresh clusters. */
  function ZeroPad(n: nat, cs: nat): seq<byte> { Zeros(n * cs) }

  lemma ZeroPadLen(n: nat, cs: nat)
    ensures |ZeroPad(n, cs)| == n * cs
  {
  }

  lemma ZeroPadStep(n: nat, cs: nat)
    ensures ZeroPad(n, cs) + Zeros(cs) == ZeroPad(n + 1, cs)
    ensures ZeroPad(0, cs) == [] && ZeroPad(1, cs) == Zeros(cs)
  {
    Boundary(n, n + 1, cs);
  }

  function At(cl: Clusters, c: nat): seq<byte> { if c < |cl| then cl[c] else [] }

  function Stream(cl: Clusters, ch: seq<nat>): seq<byte>
  {
    if ch == [] then [] else Stream(cl, ch[..|ch| - 1]) + At(cl, ch[|ch| - 1])
  }

  function Splice(s: seq<byte>, off: nat, data: seq<byte>): (r: seq<byte>)
    requires off + |data| <= |s|
    ensures |r| == |s|
  {
    s[..off] + data + s[off + |data|..]
  }

  /** Every cluster of the chain holds `cs` bytes. */
  predicate Uniform(cl: Clusters, ch: seq<nat>, cs: nat)
  {
    forall i :: 0 <= i < |ch| ==> |At(cl, ch[i])| == cs
  }

  predicate Distinct(ch: seq<nat>)
  {
    forall i, j :: 0 <= i < j < |ch| ==> ch[i] != ch[j]
  }

  /** Cluster boundaries are monotone in the cluster index. */
  lemma Boundary(i: nat, n: nat, cs: nat)
    requires i < n
    ensures i * cs + cs <= n * cs && (i + 1) * cs == i * cs + cs
  {
    MulMono(i + 1, n, cs);
  }

  lemma {:induction false} StreamLen(cl: Clusters, ch: seq<nat>, cs: nat)
    requires Uniform(cl, ch, cs)
    ensures |Stream(cl, ch)| == |ch| * cs
  {
    if ch != [] {
      StreamLen(cl, ch[..|ch| - 1], cs);
      Boundary(|ch| - 1, |ch|, cs);
    }
  }

  lemma StreamSnoc(cl: Clusters, ch: seq<nat>, c: nat)
    ensures Stream(cl, ch + [c]) == Stream(cl, ch) + At(cl, c)
  {
    assert (ch + [c])[..|ch|] == ch;
  }

  lemma {:induction false} StreamConcat(cl: Clusters, a: seq<nat>, b: seq<nat>)
    ensures Stream(cl, a + b) == Stream(cl, a) + Stream(cl, b)
  {
    hide Stream, At;
    if b == [] {
      assert a + b == a;
      assert Stream(cl, []) == [] by { StreamLen(cl, [], 0); }
    } else {
      var b', c := b[..|b| - 1], b[|b| - 1];
      StreamConcat(cl, a, b');
      StreamSnoc(cl, a + b', c);
      StreamSnoc(cl, b', c);
      assert b == b' + [c] && a + b == (a + b') + [c];
      Assoc(Stream(cl, a), Stream(cl, b'), At(cl, c));
    }
  }

  lemma Assoc(a: seq<byte>, b: seq<byte>, c: seq<byte>)
    ensures (a + b) + c == a + (b + c)
  {
  }

  lemma StreamOne(cl: Clusters, c: nat)
    ensures Stream(cl, [c]) == At(cl, c)
  {
    assert [c][..0] == [];
    assert Stream(cl, []) + At(cl, c) == At(cl, c);
  }

  /** The stream of a prefix of the chain is a prefix of the stream. */
  lemma StreamPrefix(cl: Clusters, ch: seq<nat>, k: nat, cs: nat)
    requires k <= |ch| && Uniform(cl, ch, cs)
    ensures k * cs <= |Stream(cl, ch)| == |ch| * cs
    ensures Stream(cl, ch[..k]) == Stream(cl, ch)[..k * cs]
    ensures Stream(cl, ch[k..]) == Stream(cl, ch)[k * cs..]
  {
    hide Stream, At;
    StreamLen(cl, ch, cs);
    StreamLen(cl, ch[..k], cs);
    MulMono(k, |ch|, cs);
    assert ch == ch[..k] + ch[k..];
    StreamConcat(cl, ch[..k], ch[k..]);
    Halves(Stream(cl, ch), Stream(cl, ch[..k]), Stream(cl, ch[k..]), k * cs);
  }

  lemma Halves(s: seq<byte>, a: seq<byte>, b: seq<byte>, n: nat)
    requires s == a + b && |a| == n
    ensures s[..n] == a && s[n..] == b
  {
  }

  /** Cluster `i` of the chain is the `i`-th stretch of the stream. */
  lemma StreamPart(cl: Clusters, ch: seq<nat>, i: nat, cs: nat)
    requires i < |ch| && Uniform(cl, ch, cs)
    ensures i * cs + cs <= |Stream(cl, ch)| == |ch| * cs
    ensures Stream(cl, ch)[i * cs..i * cs + cs] == At(cl, ch[i])
  {
    hide Stream, At;
    Boundary(i, |ch|, cs);
    StreamPrefix(cl, ch, i + 1, cs);
    StreamPrefix(cl, ch, i, cs);
    assert ch[..i + 1] == ch[..i] + [ch[i]];
    StreamSnoc(cl, ch[..i], ch[i]);
    MiddlePart(Stream(cl, ch), Stream(cl, ch[..i]), At(cl, ch[i]), i * cs, i * cs + cs);
  }

  lemma MiddlePart(s: seq<byte>, a: seq<byte>, x: seq<byte>, lo: nat, hi: nat)
    requires lo <= hi <= |s| && s[..lo] == a && s[..hi] == a + x
    ensures s[lo..hi] == x
  {
    assert s[lo..hi] == s[..hi][lo..];
  }

  lemma {:induction false} StreamFrame(cl: Clusters, cl': Clusters, ch: seq<nat>)
    requires forall i :: 0 <= i < |ch| ==> At(cl, ch[i]) == At(cl', ch[i])
    ensures Stream(cl, ch) == Stream(cl', ch)
  {
    if ch != [] {
      StreamFrame(cl, cl', ch[..|ch| - 1]);
    }
  }

  /** Rewriting one cluster of a chain rewrites the corresponding stretch of the stream. */
  lemma StreamUpdate(cl: Clusters, ch: seq<nat>, i: nat, bytes: seq<byte>, cs: nat)
    requires i < |ch| && Distinct(ch) && Uniform(cl, ch, cs)
    requires |bytes| == cs && ch[i] < |cl|
    ensures Uniform(cl[ch[i] := bytes], ch, cs)
    ensures i * cs + cs <= |Stream(cl, ch)|
    ensures Stream(cl[ch[i] := bytes], ch) == Splice(Stream(cl, ch), i * cs, bytes)
  {
    hide Stream, At;
    var cl' := cl[ch[i] := bytes];
    Boundary(i, |ch|, cs);
    UpdateFrame(cl, ch, i, bytes, cs);
    StreamPart(cl', ch, i, cs);
    StreamPrefix(cl, ch, i, cs);
    StreamPrefix(cl', ch, i, cs);
    StreamPrefix(cl, ch, i + 1, cs);
    StreamPrefix(cl', ch, i + 1, cs);
    ThreeParts(Stream(cl', ch), i * cs, i * cs + cs);
  }

  lemma UpdateFrame(cl: Clusters, ch: seq<nat>, i: nat, bytes: seq<byte>, cs: nat)
    requires i < |ch| && Distinct(ch) && Uniform(cl, ch, cs)
    requires |bytes| == cs && ch[i] < |cl|
    ensures Uniform(cl[ch[i] := bytes], ch, cs)
    ensures At(cl[ch[i] := bytes], ch[i]) == bytes
    ensures Stream(cl[ch[i] := bytes], ch[..i]) == Stream(cl, ch[..i])
    ensures Stream(cl[ch[i] := bytes], ch[i + 1..]) == Stream(cl, ch[i + 1..])
  {
    StreamFrame(cl, cl[ch[i] := bytes], ch[..i]);
    StreamFrame(cl, cl[ch[i] := bytes], ch[i + 1..]);
  }

  lemma ThreeParts(s: seq<byte>, lo: nat, hi: nat)
    requires lo <= hi <= |s|
    ensures s == s[..lo] + s[lo..hi] + s[hi..]
  {
  }

  /** Writing `a` and then `b` right behind it is writing `a + b`. */
  lemma SpliceJoin(s: seq<byte>, off: nat, a: seq<byte>, b: seq<byte>)
    requires off + |a| + |b| <= |s|
    ensures Splice(Splice(s, off, a), off + |a|, b) == Splice(s, off, a + b)
  {
  }

  lemma PiecesJoin(s: seq<byte>, off: nat, data: seq<byte>, written: nat, chunk: nat)
    requires written + chunk <= |data| && off + written + chunk <= |s|
    ensures Splice(Splice(s, off, data[..written]), off + written, data[written..written + chunk])
            == Splice(s, off, data[..written + chunk])
    ensures written == 0 ==> Splice(s, off, data[..written]) == s
  {
    SpliceJoin(s, off, data[..written], data[written..written + chunk]);
    assert data[..written] + data[written..written + chunk] == data[..written + chunk];
  }

  /** Rewriting a whole cluster with a partly changed copy of itself is writing the change. */
  lemma SpliceWithin(s: seq<byte>, base: nat, cs: nat, at: nat, data: seq<byte>)
    requires base + cs <= |s| && at + |data| <= cs
    ensures Splice(s, base, Splice(s[base..base + cs], at, data)) == Splice(s, base + at, data)
  {
  }

  /** What reading back a write gives: the data inside, the old bytes elsewhere. */
  lemma SpliceRead(s: seq<byte>, off: nat, data: seq<byte>, lo: nat, hi: nat)
    requires off + |data| <= |s| && lo <= hi <= |s|
    ensures hi <= off || off + |data| <= lo ==> Splice(s, off, data)[lo..hi] == s[lo..hi]
    ensures lo == off && hi == off + |data| ==> Splice(s, off, data)[lo..hi] == data
  {
    SpliceAt(s, off, data);
    var r := Splice(s, off, data);
    hide Splice;
    if hi <= off || off + |data| <= lo {
      assert forall k :: 0 <= k < hi - lo ==> r[lo..hi][k] == s[lo + k];
      assert r[lo..hi] == s[lo..hi];
    }
    if lo == off && hi == off + |data| {
      assert forall k :: 0 <= k < |data| ==> r[lo..hi][k] == data[k];
      assert r[lo..hi] == data;
    }
  }

  lemma SpliceAt(s: seq<byte>, off: nat, data: seq<byte>)
    requires off + |data| <= |s|
    ensures forall k :: 0 <= k < off || off + |data| <= k < |s| ==> Splice(s, off, data)[k] == s[k]
    ensures forall k :: 0 <= k < |data| ==> Splice(s, off, data)[off + k] == data[k]
  {
    forall k | off + |data| <= k < |s| ensures Splice(s, off, data)[k] == s[k] {
      assert Splice(s, off, data)[k] == s[off + |data|..][k - (off + |data|)];
    }
  }

  /** Consecutive ids: the blocks of a cluster, or the physical blocks of a logical one. */
  function Run(first: nat, n: nat): seq<nat> { seq(n, j requires 0 <= j < n => first + j) }

  /** Where stretch number `i` starts. */
  function Edge(i: nat, cs: nat): nat { i * cs }

  lemma EdgeSteps(i: nat, n: nat, cs: nat)
    ensures Edge(0, cs) == 0 && Edge(i + 1, cs) == Edge(i, cs) + cs && Edge(n, cs) == n * cs
    ensures i < n ==> Edge(i, cs) + cs <= Edge(n, cs)
  {
    if i < n { Boundary(i, n, cs); }
    Boundary(i, i + 1, cs);
  }

  lemma RunAt(first: nat, n: nat)
    ensures |Run(first, n)| == n && forall j :: 0 <= j < n ==> Run(first, n)[j] == first + j
  {
  }

  /** Stretch number `j` of the data, cut in stretches of `cs` bytes. */
  function Chunk(data: seq<byte>, j: nat, cs: nat): seq<byte>
  {
    if j * cs + cs <= |data| then data[j * cs..j * cs + cs] else []
  }

  lemma ChunkIs(data: seq<byte>, j: nat, cs: nat)
    requires j * cs + cs <= |data|
    ensures Chunk(data, j, cs) == data[j * cs..j * cs + cs]
  {
  }

  /** Replaces stretch number `j`. */
  function PutChunk(data: seq<byte>, j: nat, cs: nat, bytes: seq<byte>): (r: seq<byte>)
    ensures |r| == |data|
  {
    if |bytes| == cs && j * cs + cs <= |data| then Splice(data, j * cs, bytes) else data
  }

  lemma ChunkLen(data: seq<byte>, j: nat, n: nat, cs: nat)
    requires j < n && |data| == n * cs
    ensures |Chunk(data, j, cs)| == cs
  {
    Boundary(j, n, cs);
  }

  lemma ZeroChunk(len: nat, j: nat, n: nat, cs: nat)
    requires j < n && len == n * cs
    ensures Chunk(Zeros(len), j, cs) == Zeros(cs)
  {
    Boundary(j, n, cs);
  }

  lemma ChunkPrefix(data: seq<byte>, j: nat, n: nat, cs: nat)
    requires j < n && |data| == n * cs + cs
    ensures n * cs <= |data| && |data[..n * cs]| == n * cs
    ensures Chunk(data[..n * cs], j, cs) == Chunk(data, j, cs)
  {
    Boundary(j, n, cs);
  }

  lemma ChunkLast(data: seq<byte>, n: nat, cs: nat)
    requires |data| == n * cs + cs
    ensures n * cs <= |data| && |data[..n * cs]| == n * cs
    ensures data[..n * cs] + Chunk(data, n, cs) == data
  {
  }

  /** A stream is known from its parts. */
  lemma {:induction false} StreamByParts(cl: Clusters, ch: seq<nat>, cs: nat, data: seq<byte>)
    requires |data| == |ch| * cs
    requires forall j :: 0 <= j < |ch| ==> At(cl, ch[j]) == Chunk(data, j, cs)
    ensures Stream(cl, ch) == data
  {
    if ch != [] {
      hide Chunk, At;
      var n := |ch| - 1;
      Boundary(n, |ch|, cs);
      ChunkLast(data, n, cs);
      var front := data[..n * cs];
      forall j | 0 <= j < n ensures At(cl, ch[..n][j]) == Chunk(front, j, cs) {
        ChunkPrefix(data, j, n, cs);
      }
      StreamByParts(cl, ch[..n], cs, front);
    }
  }

  // --- interrupted writes ---------------------------------------------------------------------------

  /** What an interrupted write leaves: every byte is the old one or the new one. */
  predicate Torn(a: seq<byte>, b: seq<byte>, x: seq<byte>)
  {
    |a| == |x| == |b| && forall k :: 0 <= k < |x| ==> x[k] == a[k] || x[k] == b[k]
  }

  lemma TornJoin(a: seq<byte>, b: seq<byte>, x: seq<byte>, a': seq<byte>, b': seq<byte>, x': seq<byte>)
    requires Torn(a, b, x) && Torn(a', b', x')
    ensures Torn(a + a', b + b', x + x')
  {
  }

  lemma TornEnds(a: seq<byte>, b: seq<byte>)
    requires |a| == |b|
    ensures Torn(a, b, a) && Torn(a, b, b)
  {
  }

  lemma ChunkOfStream(cl: Clusters, ch: seq<nat>, j: nat, cs: nat)
    requires j < |ch| && Uniform(cl, ch, cs)
    ensures Chunk(Stream(cl, ch), j, cs) == At(cl, ch[j]) && |Stream(cl, ch)| == |ch| * cs
  {
    StreamPart(cl, ch, j, cs);
  }

  /** A stream whose parts are torn is torn. */
  lemma {:induction false} StreamTorn(cl: Clusters, ch: seq<nat>, cs: nat, a: seq<byte>, b: seq<byte>)
    requires |a| == |b| == |ch| * cs
    requires forall j :: 0 <= j < |ch| ==> Torn(Chunk(a, j, cs), Chunk(b, j, cs), At(cl, ch[j]))
    ensures Torn(a, b, Stream(cl, ch))
  {
    hide Chunk, At, Torn;
    if ch == [] {
      TornEnds(a, b);
      assert a == Stream(cl, []);
    } else {
      var n := |ch| - 1;
      Boundary(n, |ch|, cs);
      ChunkLast(a, n, cs);
      ChunkLast(b, n, cs);
      var a0, b0 := a[..n * cs], b[..n * cs];
      forall j | 0 <= j < n ensures Torn(Chunk(a0, j, cs), Chunk(b0, j, cs), At(cl, ch[..n][j])) {
        ChunkPrefix(a, j, n, cs);
        ChunkPrefix(b, j, n, cs);
      }
      StreamTorn(cl, ch[..n], cs, a0, b0);
      TornJoin(a0, b0, Stream(cl, ch[..n]), Chunk(a, n, cs), Chunk(b, n, cs), At(cl, ch[n]));
    }
  }

  /** A torn cluster of a chain. */
  lemma StreamTornAt(cl: Clusters, cl': Clusters, ch: seq<nat>, i: nat, bytes: seq<byte>, cs: nat)
    requires i < |ch| && Distinct(ch) && Uniform(cl, ch, cs) && |bytes| == cs && ch[i] < |cl|
    requires Torn(At(cl, ch[i]), bytes, At(cl', ch[i]))
    requires forall d :: d != ch[i] ==> At(cl', d) == At(cl, d)
    ensures Torn(Stream(cl, ch), PutChunk(Stream(cl, ch), i, cs, bytes), Stream(cl', ch))
  {
    var s := Stream(cl, ch);
    StreamUpdate(cl, ch, i, bytes, cs);
    var cl1 := cl[ch[i] := bytes];
    assert PutChunk(s, i, cs, bytes) == Stream(cl1, ch);
    hide Stream, PutChunk, Torn, Chunk;
    StreamLen(cl, ch, cs);
    StreamLen(cl1, ch, cs);
    forall j | 0 <= j < |ch| ensures Torn(Chunk(s, j, cs), Chunk(Stream(cl1, ch), j, cs), At(cl', ch[j])) {
      ChunkOfStream(cl, ch, j, cs);
      ChunkOfStream(cl1, ch, j, cs);
      if j != i {
        TornEnds(At(cl, ch[j]), At(cl1, ch[j]));
        assert ch[j] != ch[i];
      }
    }
    StreamTorn(cl', ch, cs, s, Stream(cl1, ch));
  }

  /** Only bytes in `[lo..hi]` have changed. */
  predicate SameOutside(s: seq<byte>, s': seq<byte>, lo: nat, hi: nat)
  {
    |s'| == |s| && forall k :: 0 <= k < |s| && !(lo <= k < hi) ==> s'[k] == s[k]
  }

  /** An interrupted splice changes only bytes of its range. */
  lemma TornSplice(s: seq<byte>, off: nat, data: seq<byte>, x: seq<byte>)
    requires off + |data| <= |s| && Torn(s, Splice(s, off, data), x)
    ensures SameOutside(s, x, off, off + |data|)
  {
    SpliceAt(s, off, data);
    hide Splice;
  }

  lemma SpliceOutside(s: seq<byte>, off: nat, data: seq<byte>)
    requires off + |data| <= |s|
    ensures SameOutside(s, Splice(s, off, data), off, off + |data|)
  {
    SpliceAt(s, off, data);
    hide Splice;
  }

  lemma OutsideRefl(s: seq<byte>, lo: nat)
    ensures SameOutside(s, s, lo, lo)
  {
  }

  lemma OutsideWider(s: seq<byte>, s': seq<byte>, lo: nat, hi: nat, hi': nat)
    requires SameOutside(s, s', lo, hi) && hi <= hi'
    ensures SameOutside(s, s', lo, hi')
  {
  }

  /** Cutting a string and changing it from `size` on leaves its first `size` bytes. */
  lemma SameFront(a: seq<byte>, b: seq<byte>, c: seq<byte>, size: nat, hi: nat)
    requires b <= a && size <= |b| && SameOutside(b, c, size, hi)
    ensures size <= |c| && c[..size] == a[..size]
  {
    assert forall k :: 0 <= k < size ==> c[k] == b[k];
  }

  lemma OutsideTrans(s: seq<byte>, s1: seq<byte>, s2: seq<byte>, lo: nat, mid: nat, mid': nat, hi: nat)
    requires SameOutside(s, s1, lo, mid) && SameOutside(s1, s2, mid', hi) && lo <= mid' && mid <= hi
    ensures SameOutside(s, s2, lo, hi)
  {
  }

  lemma ZeroRun(cl: Clusters, first: nat, n: nat, cs: nat)
    requires first + n <= |cl|
    requires forall p :: first <= p < first + n ==> cl[p] == Zeros(cs)
    ensures Stream(cl, Run(first, n)) == Zeros(n * cs)
  {
    hide Stream, Chunk;
    forall j | 0 <= j < n ensures At(cl, Run(first, n)[j]) == Chunk(Zeros(n * cs), j, cs) {
      ZeroChunk(n * cs, j, n, cs);
    }
    StreamByParts(cl, Run(first, n), cs, Zeros(n * cs));
  }

  /** Number of the cluster a cursor lies in, and the bytes from the cursor to the end of that cluster. */
  function ClusterNo(cursor: nat, cs: nat): nat
    requires cs > 0
  {
    cursor / cs
  }

  function Room(cursor: nat, cs: nat): (r: nat)
    requires cs > 0
    ensures 0 < r <= cs
  {
    cs - cursor % cs
  }

  /** A cursor whose cluster is inside the stream may use all its room; any other lies at or behind the end. */
  lemma CursorInside(cursor: nat, n: nat, cs: nat, len: nat)
    requires cs > 0 && len == n * cs
    ensures ClusterNo(cursor, cs) < n ==> cursor + Room(cursor, cs) <= len
    ensures ClusterNo(cursor, cs) >= n ==> cursor >= len
    ensures ClusterNo(cursor + Room(cursor, cs), cs) == ClusterNo(cursor, cs) + 1
  {
    var k := cursor / cs;
    assert cursor == k * cs + cursor % cs;
    if k < n { MulOrder(k, n, cs); } else { MulMono(n, k, cs); }
    Boundary(k, k + 1, cs);
    DivModUnique(cursor + Room(cursor, cs), cs, k + 1, 0);
  }

  /** The bytes from a cursor to at most the end of its cluster, cut out of that cluster. */
  lemma CursorRead(s: seq<byte>, cursor: nat, chunk: nat, n: nat, cs: nat)
    requires cs > 0 && |s| == n * cs && ClusterNo(cursor, cs) < n && chunk <= Room(cursor, cs)
    ensures cursor + chunk <= |s| && |Chunk(s, ClusterNo(cursor, cs), cs)| == cs
    ensures s[cursor..cursor + chunk] ==
      Chunk(s, ClusterNo(cursor, cs), cs)[cs - Room(cursor, cs)..cs - Room(cursor, cs) + chunk]
  {
    hide ClusterNo, Room, Chunk;
    CursorInside(cursor, n, cs, |s|);
    CursorPlace(cursor, cs);
    Boundary(ClusterNo(cursor, cs), n, cs);
    ChunkIs(s, ClusterNo(cursor, cs), cs);
    SliceInside(s, ClusterNo(cursor, cs) * cs, cs, cs - Room(cursor, cs), chunk);
  }

  lemma CursorPlace(cursor: nat, cs: nat)
    requires cs > 0
    ensures cursor == ClusterNo(cursor, cs) * cs + (cs - Room(cursor, cs))
  {
  }

  /** Changing the bytes from a cursor on inside its cluster is rewriting that cluster. */
  lemma CursorWrite(s: seq<byte>, cursor: nat, data: seq<byte>, n: nat, cs: nat)
    requires cs > 0 && |s| == n * cs && ClusterNo(cursor, cs) < n && |data| <= Room(cursor, cs)
    ensures cursor + |data| <= |s| && |Chunk(s, ClusterNo(cursor, cs), cs)| == cs
    ensures PutChunk(s, ClusterNo(cursor, cs), cs,
      Splice(Chunk(s, ClusterNo(cursor, cs), cs), cs - Room(cursor, cs), data))
            == Splice(s, cursor, data)
  {
    CursorInside(cursor, n, cs, |s|);
    assert cursor == cursor / cs * cs + cursor % cs;
    SpliceWithin(s, cursor / cs * cs, cs, cursor % cs, data);
  }

  lemma SliceInside(s: seq<byte>, base: nat, cs: nat, r: nat, len: nat)
    requires base + cs <= |s| && r + len <= cs
    ensures s[base + r..base + r + len] == s[base..base + cs][r..r + len]
  {
    var a, b := s[base + r..base + r + len], s[base..base + cs][r..r + len];
    assert |a| == |b| && forall i :: 0 <= i < |a| ==> a[i] == b[i];
  }

  function ZeroRange(s: seq<byte>, off: nat, len: nat): (r: seq<byte>)
    ensures |r| == |s|
  {
    if off + len <= |s| then Splice(s, off, Zeros(len)) else s
  }

  lemma ZeroRangeJoin(s: seq<byte>, off: nat, a: nat, b: nat)
    requires off + a + b <= |s|
    ensures ZeroRange(s, off, 0) == s
    ensures |ZeroRange(s, off, a)| == |s| && |Zeros(b)| == b
    ensures Splice(ZeroRange(s, off, a), off + a, Zeros(b)) == ZeroRange(s, off, a + b)
  {
    assert Zeros(a) + Zeros(b) == Zeros(a + b);
    SpliceJoin(s, off, Zeros(a), Zeros(b));
  }

  /** Cutting an object to the clusters that `n` bytes need, and clearing what lies behind them. */
  lemma CutBytes(s: seq<byte>, size: nat, n: nat, cs: nat)
    requires cs > 0 && n < size && |s| == Whole(size, cs)
    ensures DivCeil(n, cs) == 0 <==> n == 0
    ensures DivCeil(n, cs) * cs == Whole(n, cs) && n <= Whole(n, cs) <= |s|
    ensures Missing(n, size, cs) == DivCeil(size, cs) - DivCeil(n, cs)
    ensures var k := Whole(n, cs);
      var cut := if k < |s| then s[..k] else s;
      && cut == s[..k]
      && (n % cs != 0 ==> k - n == cs - n % cs)
      && (n % cs == 0 ==> Splice(cut, n, Zeros(k - n)) == cut)
  {
    WholeBounds(n, cs);
    WholeMono(n, size, cs);
    WholeRest(n, cs);
    DivCeilMono(n, size, cs);
  }

  function Slice(s: seq<byte>, lo: nat, hi: nat): seq<byte> { if lo <= hi <= |s| then s[lo..hi] else [] }

  /** Reading on from where the last read ended. */
  lemma SliceJoin(s: seq<byte>, lo: nat, mid: nat, hi: nat)
    ensures Slice(s, lo, lo) == []
    ensures lo <= mid <= hi <= |s| ==> Slice(s, lo, mid) + s[mid..hi] == Slice(s, lo, hi)
    ensures lo <= hi <= |s| ==> Slice(s, lo, hi) == s[lo..hi]
  {
  }
}
