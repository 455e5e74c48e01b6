/**
 Cluster chains threaded through the file allocation table: the walk over an arbitrary table, the
 invariant that the table is a set of disjoint chains, and the steps that keep it.
 */
module FatChains {
  import opened Base

  datatype FatEntry = Free | EndOfChain | Next(cluster: u16)

  type Fat = seq<FatEntry>

  // --- 16-bit encoding ------------------------------------------------------------------------

  function EncodeEntry(e: FatEntry): u16
  {
    match e
    case Free => 0
    case EndOfChain => 0xFFFF
    case Next(c) => c
  }

  function DecodeEntry(raw: u16): FatEntry
  {
    if raw == 0 then Free else if raw == 0xFFFF then EndOfChain else Next(raw)
  }

  /** The two links whose numbers are the reserved markers are the only ones the encoding loses. */
  predicate Encodable(e: FatEntry) { e.Next? ==> 0 < e.cluster < 0xFFFF }

  lemma EntryRoundTrip(e: FatEntry, raw: u16)
    ensures DecodeEntry(EncodeEntry(e)) == e <==> Encodable(e)
    ensures EncodeEntry(DecodeEntry(raw)) == raw
  {
  }

  // --- walking an arbitrary table --------------------------------------------------------------

  ghost function Ids(max: nat): (r: set<nat>)
    ensures forall c: nat :: c in r <==> c <= max
  {
    if max == 0 then {0} else Ids(max - 1) + {max}
  }

  /** Everything a chain iterator still yields, from its cursor and its set of visited clusters. */
  ghost function Walk(fat: Fat, max: nat, start: nat, cursor: Option<nat>, visited: set<nat>): seq<Result<nat>>
    requires max < |fat|
    decreases Ids(max) - visited, if cursor.Some? then 1 else 0
  {
    match cursor
    case None => []
    case Some(c) =>
      if c in visited then [Failure(CorruptFs(ChainLoop(c)))]
      else if c > max then [Failure(CorruptFs(OutsideRegion(c)))]
      else
        assert c in Ids(max) - visited;
        match fat[c]
        case Free => [Failure(CorruptFs(ReachesFree(start)))]
        case EndOfChain => [Success(c)]
        case Next(n) => [Success(c)] + Walk(fat, max, start, Some(n), visited + {c})
  }

  /** The whole walk from `start`, where the reserved id 0 stands for "no cluster". */
  ghost function WalkFrom(fat: Fat, max: nat, start: nat): seq<Result<nat>>
    requires max < |fat|
  {
    Walk(fat, max, start, if start == 0 then None else Some(start), {})
  }

  /** Element `i` of `ch` points to its successor, or ends the chain if it is the last. */
  predicate Link(fat: Fat, ch: seq<nat>, i: nat)
  {
    && i < |ch| && ch[i] < |fat|
    && if i + 1 < |ch| then fat[ch[i]].Next? && fat[ch[i]].cluster == ch[i + 1] else fat[ch[i]].EndOfChain?
  }

  /** `ch` is a path through the table that ends in an end-of-chain mark. */
  predicate Path(fat: Fat, max: nat, ch: seq<nat>)
  {
    && ch != []
    && (forall i :: 0 <= i < |ch| ==> ch[i] <= max)
    && (forall i :: 0 <= i < |ch| ==> Link(fat, ch, i))
  }

  function Oks(ch: seq<nat>): seq<Result<nat>> { seq(|ch|, i requires 0 <= i < |ch| => Success(ch[i])) }

  predicate AllOk(w: seq<Result<nat>>) { forall i :: 0 <= i < |w| ==> w[i].Success? }

  function Members(w: seq<Result<nat>>): seq<nat>
    requires AllOk(w)
  {
    seq(|w|, i requires 0 <= i < |w| => w[i].value)
  }

  lemma OksTail(ch: seq<nat>, k: nat)
    requires k <= |ch|
    ensures k == |ch| <==> Oks(ch[k..]) == []
    ensures k < |ch| ==> Oks(ch[k..])[0] == Success(ch[k]) && Oks(ch[k..])[1..] == Oks(ch[k + 1..])
  {
    if k < |ch| {
      assert ch[k..] == [ch[k]] + ch[k + 1..];
    } else {
      assert ch[k..] == [];
    }
  }

  lemma MembersOks(ch: seq<nat>)
    ensures AllOk(Oks(ch)) && Members(Oks(ch)) == ch
  {
  }

  /** At most one error, and it comes last; every yielded cluster is in range, new and yielded once. */
  predicate WellShaped(w: seq<Result<nat>>, max: nat, visited: set<nat>)
  {
    && (forall i :: 0 <= i < |w| - 1 ==> w[i].Success?)
    && (forall i :: 0 <= i < |w| && w[i].Success? ==> w[i].value <= max && w[i].value !in visited)
    && (forall i, j :: 0 <= i < j < |w| && w[j].Success? ==> w[i] != w[j])
  }

  lemma ConsShape(c: nat, rest: seq<Result<nat>>, max: nat, visited: set<nat>)
    requires WellShaped(rest, max, visited + {c}) && c <= max && c !in visited
    ensures WellShaped([Success(c)] + rest, max, visited)
  {
    var w: seq<Result<nat>> := [Success(c)] + rest;
    forall i | 0 < i < |w| ensures w[i] == rest[i - 1] {}
  }

  lemma {:induction false} WalkShape(fat: Fat, max: nat, start: nat, cursor: Option<nat>, visited: set<nat>)
    requires max < |fat|
    ensures WellShaped(Walk(fat, max, start, cursor, visited), max, visited)
    decreases Ids(max) - visited, if cursor.Some? then 1 else 0
  {
    if cursor.Some? && cursor.value !in visited && cursor.value <= max && fat[cursor.value].Next? {
      var c, next := cursor.value, fat[cursor.value].cluster;
      assert c in Ids(max) - visited;
      WalkShape(fat, max, start, Some(next), visited + {c});
      ConsShape(c, Walk(fat, max, start, Some(next), visited + {c}), max, visited);
    }
  }

  /** A walk without an error has followed a path to its end-of-chain mark. */
  lemma {:induction false} CleanWalkIsPath(fat: Fat, max: nat, start: nat, cursor: nat, visited: set<nat>)
      returns (ch: seq<nat>)
    requires max < |fat|
    requires AllOk(Walk(fat, max, start, Some(cursor), visited))
    ensures Path(fat, max, ch) && ch[0] == cursor
    ensures Walk(fat, max, start, Some(cursor), visited) == Oks(ch)
    decreases Ids(max) - visited
  {
    var w := Walk(fat, max, start, Some(cursor), visited);
    assert w[0].Success?;
    assert cursor in Ids(max) - visited;
    if fat[cursor].EndOfChain? {
      ch := [cursor];
    } else {
      var n: nat := fat[cursor].cluster;
      var w' := Walk(fat, max, start, Some(n), visited + {cursor});
      assert w == [Success(cursor)] + w';
      OkTail(w, Success(cursor), w');
      var rest := CleanWalkIsPath(fat, max, start, n, visited + {cursor});
      hide Walk;
      ch := [cursor] + rest;
      PathCons(fat, max, cursor, rest);
      assert Oks(ch) == [Success(cursor)] + Oks(rest);
    }
  }

  lemma OkTail(w: seq<Result<nat>>, x: Result<nat>, w': seq<Result<nat>>)
    requires AllOk(w) && w == [x] + w'
    ensures AllOk(w')
  {
    assert forall i :: 0 <= i < |w'| ==> w'[i] == w[i + 1];
  }

  lemma PathCons(fat: Fat, max: nat, c: nat, rest: seq<nat>)
    requires Path(fat, max, rest) && c <= max < |fat| && fat[c].Next? && fat[c].cluster == rest[0]
    ensures Path(fat, max, [c] + rest)
  {
    var ch := [c] + rest;
    forall i | 0 <= i < |ch| ensures Link(fat, ch, i) {
      assert i > 0 ==> Link(fat, rest, i - 1);
    }
  }

  /** A path never visits a cluster twice: from equal clusters the remaining lengths are equal. */
  lemma {:induction false} PathEnds(fat: Fat, max: nat, ch: seq<nat>, i: nat, j: nat)
    requires max < |fat| && Path(fat, max, ch)
    requires i < |ch| && j < |ch| && ch[i] == ch[j]
    ensures i == j
    decreases |ch| - i
  {
    assert Link(fat, ch, i) && Link(fat, ch, j);
    if i < |ch| - 1 && j < |ch| - 1 {
      PathEnds(fat, max, ch, i + 1, j + 1);
    }
  }

  /** Walking along a path, from any point of it, yields the rest of the path and no error. */
  lemma {:induction false} WalkAlongPath(fat: Fat, max: nat, start: nat, ch: seq<nat>, k: nat, visited: set<nat>)
    requires max < |fat| && Path(fat, max, ch) && k < |ch|
    requires forall x :: x in visited <==> x in ch[..k]
    ensures Walk(fat, max, start, Some(ch[k]), visited) == Oks(ch[k..])
    decreases |ch| - k
  {
    assert Link(fat, ch, k);
    if ch[k] in visited {
      var i :| 0 <= i < k && ch[i] == ch[k];
      PathEnds(fat, max, ch, i, k);
    }
    if k == |ch| - 1 {
      assert ch[k..] == [ch[k]];
    } else {
      assert ch[..k + 1] == ch[..k] + [ch[k]];
      WalkAlongPath(fat, max, start, ch, k + 1, visited + {ch[k]});
      assert ch[k..] == [ch[k]] + ch[k + 1..];
      assert Oks(ch[k..]) == [Success(ch[k])] + Oks(ch[k + 1..]);
    }
  }

  /**
   The iterator on any table, corrupt ones included: it ends without an error exactly when the start
   is 0 or a path leads from it to an end-of-chain mark, and then it yields that path.
   */
  lemma WalkCleanIff(fat: Fat, max: nat, start: nat)
    requires max < |fat|
    ensures AllOk(WalkFrom(fat, max, start)) <==>
      start == 0 || exists ch :: Path(fat, max, ch) && ch[0] == start
    ensures forall ch :: Path(fat, max, ch) && ch[0] == start && start != 0 ==> WalkFrom(fat, max, start) == Oks(ch)
  {
    forall ch | Path(fat, max, ch) && ch[0] == start && start != 0
      ensures WalkFrom(fat, max, start) == Oks(ch)
    {
      WalkAlongPath(fat, max, start, ch, 0, {});
      assert ch[0..] == ch;
    }
    if start != 0 && AllOk(WalkFrom(fat, max, start)) {
      var ch := CleanWalkIsPath(fat, max, start, start, {});
    }
  }

  /** Before its error a walk has followed links. */
  predicate Followed(fat: Fat, max: nat, c0: nat, w: seq<Result<nat>>)
    requires max < |fat|
  {
    && w != [] && (|w| > 1 ==> w[0] == Success(c0))
    && (forall i :: 0 <= i < |w| - 1 ==> w[i].Success? && w[i].value <= max && fat[w[i].value].Next?)
    && (forall i :: 0 <= i < |w| - 2 ==> fat[w[i].value].cluster == w[i + 1].value)
  }

  /** Where the walk stopped: the start, or what the last cluster links to. */
  function StopOf(fat: Fat, max: nat, c0: nat, w: seq<Result<nat>>): nat
    requires max < |fat| && Followed(fat, max, c0, w)
  {
    if |w| == 1 then c0 else fat[w[|w| - 2].value].cluster
  }

  /** The error of a walk that stopped at `c`. */
  predicate Blames(fat: Fat, max: nat, start: nat, visited: set<nat>, c: nat, w: seq<Result<nat>>)
    requires max < |fat| && w != []
  {
    if c in visited || Success(c) in w then w[|w| - 1] == Failure(CorruptFs(ChainLoop(c)))
    else if c > max then w[|w| - 1] == Failure(CorruptFs(OutsideRegion(c)))
    else fat[c] == Free && w[|w| - 1] == Failure(CorruptFs(ReachesFree(start)))
  }

  lemma {:induction false} WalkStops(fat: Fat, max: nat, start: nat, c0: nat, visited: set<nat>)
    requires max < |fat| && !AllOk(Walk(fat, max, start, Some(c0), visited))
    ensures var w := Walk(fat, max, start, Some(c0), visited);
      Followed(fat, max, c0, w) && Blames(fat, max, start, visited, StopOf(fat, max, c0, w), w)
    decreases Ids(max) - visited
  {
    hide Walk, Followed, StopOf, Blames, AllOk;
    var w := Walk(fat, max, start, Some(c0), visited);
    WalkUnfold(fat, max, start, c0, visited);
    if c0 !in visited && c0 <= max && fat[c0].Next? {
      assert c0 in Ids(max) - visited;
      var n: nat := fat[c0].cluster;
      var w' := Walk(fat, max, start, Some(n), visited + {c0});
      AllOkCons(c0, w', w);
      WalkStops(fat, max, start, n, visited + {c0});
      FollowedCons(fat, max, c0, w, n, w');
      BlamesCons(fat, max, start, visited, StopOf(fat, max, c0, w), c0, w, w');
    } else {
      StopsAtOnce(fat, max, start, c0, visited, w);
    }
  }

  lemma WalkUnfold(fat: Fat, max: nat, start: nat, c: nat, visited: set<nat>)
    requires max < |fat|
    ensures Walk(fat, max, start, Some(c), visited) ==
      if c in visited then [Failure(CorruptFs(ChainLoop(c)))]
      else if c > max then [Failure(CorruptFs(OutsideRegion(c)))]
      else match fat[c]
        case Free => [Failure(CorruptFs(ReachesFree(start)))]
        case EndOfChain => [Success(c)]
        case Next(n) => [Success(c)] + Walk(fat, max, start, Some(n), visited + {c})
  {
  }

  lemma StopsAtOnce(fat: Fat, max: nat, start: nat, c: nat, visited: set<nat>, w: seq<Result<nat>>)
    requires max < |fat| && (c in visited || c > max || !fat[c].Next?) && !AllOk(w)
    requires w ==
      if c in visited then [Failure(CorruptFs(ChainLoop(c)))]
      else if c > max then [Failure(CorruptFs(OutsideRegion(c)))]
      else if fat[c].Free? then [Failure(CorruptFs(ReachesFree(start)))]
      else [Success(c)]
    ensures Followed(fat, max, c, w) && Blames(fat, max, start, visited, StopOf(fat, max, c, w), w)
  {
  }

  lemma BlamesCons(fat: Fat, max: nat, start: nat, visited: set<nat>, c: nat, c0: nat, w: seq<Result<nat>>,
                   w': seq<Result<nat>>)
    requires max < |fat| && w' != [] && w == [Success(c0)] + w' && Blames(fat, max, start, visited + {c0}, c, w')
    ensures Blames(fat, max, start, visited, c, w)
  {
    assert w[0] == Success(c0) && w[|w| - 1] == w'[|w'| - 1] && w[1..] == w';
    assert Success(c) in w <==> c == c0 || Success(c) in w';
  }

  lemma AllOkCons(c: nat, rest: seq<Result<nat>>, w: seq<Result<nat>>)
    requires w == [Success(c)] + rest && !AllOk(w)
    ensures !AllOk(rest)
  {
  }

  lemma FollowedCons(fat: Fat, max: nat, c0: nat, w: seq<Result<nat>>, n: nat, w': seq<Result<nat>>)
    requires c0 <= max < |fat| && fat[c0].Next? && fat[c0].cluster == n
    requires w == [Success(c0)] + w' && Followed(fat, max, n, w')
    ensures Followed(fat, max, c0, w) && StopOf(fat, max, c0, w) == StopOf(fat, max, n, w')
    ensures w' != [] && w[|w| - 1] == w'[|w'| - 1]
    ensures forall c :: Success(c) in w <==> c == c0 || Success(c) in w'
  {
    assert forall i :: 0 < i < |w| ==> w[i] == w'[i - 1];
    forall i | 0 <= i < |w| - 1
      ensures w[i].Success? && w[i].value <= max && fat[w[i].value].Next?
    {
      if i > 0 { assert w[i] == w'[i - 1]; }
    }
    forall i | 0 <= i < |w| - 2 ensures fat[w[i].value].cluster == w[i + 1].value {
      assert w[i + 1] == w'[i];
      if i > 0 { assert w[i] == w'[i - 1] && fat[w'[i - 1].value].cluster == w'[i - 1 + 1].value; }
    }
  }

  /**
   What is wrong with a table when a walk ends in an error: it has come back to a cluster, has left the data
   region, or has met a free one.
   */
  lemma WalkErrors(fat: Fat, max: nat, start: nat)
    requires max < |fat| && !AllOk(WalkFrom(fat, max, start))
    ensures start != 0
    ensures var w := WalkFrom(fat, max, start);
      Followed(fat, max, start, w) && Blames(fat, max, start, {}, StopOf(fat, max, start, w), w)
  {
    WalkStops(fat, max, start, start, {});
    hide Followed, StopOf, Blames;
  }

  /** A walk is either a list of clusters or ends in its one error. */
  lemma WalkEnds(fat: Fat, max: nat, start: nat)
    requires max < |fat|
    ensures var w := WalkFrom(fat, max, start);
      && (forall i :: 0 <= i < |w| && w[i].Success? ==> w[i].value <= max)
      && (AllOk(w) <==> w == [] || w[|w| - 1].Success?)
      && (w == [] <==> start == 0)
  {
    WalkShape(fat, max, start, if start == 0 then None else Some(start), {});
  }

  // --- a table that is a set of disjoint chains -------------------------------------------------

  /** The chains by start cluster, and for every used cluster the start of the chain it lies in. */
  datatype Layout = Layout(chains: map<nat, seq<nat>>, own: map<nat, nat>)

  predicate ChainOk(fat: Fat, max: nat, s: nat, ch: seq<nat>)
  {
    && Path(fat, max, ch) && ch[0] == s
    && (forall i :: 0 <= i < |ch| ==> 2 <= ch[i])
  }

  ghost predicate Linked(fat: Fat, max: nat, l: Layout)
  {
    forall s :: s in l.chains ==> ChainOk(fat, max, s, l.chains[s])
  }

  ghost predicate Placed(l: Layout)
  {
    forall s, c :: s in l.chains && c in l.chains[s] ==> c in l.own && l.own[c] == s
  }

  predicate OwnedAt(max: nat, l: Layout, c: nat)
  {
    2 <= c <= max && c in l.own && l.own[c] in l.chains && c in l.chains[l.own[c]]
  }

  ghost predicate Owners(max: nat, l: Layout)
  {
    forall c :: c in l.own ==> OwnedAt(max, l, c)
  }

  ghost predicate UsedIsOwned(fat: Fat, max: nat, l: Layout)
    requires max < |fat|
  {
    forall c :: 2 <= c <= max ==> (fat[c] != Free <==> c in l.own)
  }

  /**
   Every chain is linked inside [2..max] up to an end-of-chain mark; every used cluster lies in
   exactly one chain.
   */
  ghost predicate FatOk(fat: Fat, max: nat, l: Layout)
  {
    && max < |fat| && max < 0xFFFF
    && Linked(fat, max, l) && Placed(l) && Owners(max, l) && UsedIsOwned(fat, max, l)
  }

  lemma ChainIsPath(fat: Fat, max: nat, s: nat, ch: seq<nat>)
    requires max < |fat| && ChainOk(fat, max, s, ch)
    ensures WalkFrom(fat, max, s) == Oks(ch)
  {
    WalkAlongPath(fat, max, s, ch, 0, {});
    assert ch[0..] == ch;
  }

  lemma PlaceOf(fat: Fat, max: nat, l: Layout, s: nat, i: nat)
    requires FatOk(fat, max, l) && s in l.chains && i < |l.chains[s]|
    ensures 2 <= l.chains[s][i] <= max && l.chains[s][i] in l.own && l.own[l.chains[s][i]] == s
    ensures l.chains[s][0] == s
    ensures fat[l.chains[s][i]] != Free
  {
    hide Owners;
    assert ChainOk(fat, max, s, l.chains[s]);
    assert l.chains[s][i] in l.chains[s];
  }

  /** No cluster occurs twice, neither in two chains nor in one. */
  lemma ChainsDistinct(fat: Fat, max: nat, l: Layout, s: nat, i: nat, t: nat, j: nat)
    requires FatOk(fat, max, l) && s in l.chains && t in l.chains
    requires i < |l.chains[s]| && j < |l.chains[t]|
    requires l.chains[s][i] == l.chains[t][j]
    ensures s == t && i == j
  {
    PlaceOf(fat, max, l, s, i);
    PlaceOf(fat, max, l, t, j);
    assert ChainOk(fat, max, s, l.chains[s]);
    PathEnds(fat, max, l.chains[s], i, j);
  }

  /** The iterator walks exactly the chain. */
  lemma ChainWalk(fat: Fat, max: nat, l: Layout, s: nat)
    requires FatOk(fat, max, l) && s in l.chains
    ensures WalkFrom(fat, max, s) == Oks(l.chains[s]) && AllOk(WalkFrom(fat, max, s))
    ensures l.chains[s] != [] && s != 0
  {
    ChainOf(fat, max, l, s);
    ChainIsPath(fat, max, s, l.chains[s]);
  }

  // --- steps ------------------------------------------------------------------------------------

  /** A chain none of whose links changed is still a chain. */
  lemma ChainKept(fat: Fat, fat': Fat, max: nat, s: nat, ch: seq<nat>)
    requires max < |fat| == |fat'| && ChainOk(fat, max, s, ch)
    requires forall c :: c in ch ==> c < |fat| && fat'[c] == fat[c]
    ensures ChainOk(fat', max, s, ch)
  {
    forall i | 0 <= i < |ch| ensures Link(fat', ch, i) {
      assert Link(fat, ch, i) && ch[i] in ch;
    }
  }

  function AllocLayout(l: Layout, c: nat): Layout { Layout(l.chains[c := [c]], l.own[c := c]) }

  lemma FreeIsUnused(fat: Fat, max: nat, l: Layout, c: nat)
    requires FatOk(fat, max, l) && 2 <= c <= max && fat[c] == Free
    ensures c !in l.chains && c !in l.own
  {
    hide Owners;
    if c in l.chains {
      ChainOf(fat, max, l, c);
      PlaceOf(fat, max, l, c, 0);
    }
  }

  lemma ChainOf(fat: Fat, max: nat, l: Layout, s: nat)
    requires FatOk(fat, max, l) && s in l.chains
    ensures ChainOk(fat, max, s, l.chains[s])
  {
  }

  /** Marking a free cluster end-of-chain makes it a chain of its own. */
  lemma AllocOk(fat: Fat, max: nat, l: Layout, c: nat)
    requires FatOk(fat, max, l) && 2 <= c <= max && fat[c] == Free
    ensures c !in l.chains && c !in l.own
    ensures FatOk(fat[c := EndOfChain], max, AllocLayout(l, c))
  {
    FreeIsUnused(fat, max, l, c);
    AllocLinked(fat, max, l, c);
    AllocPlaced(max, l, c);
    hide Linked, Placed, Owners;
  }

  lemma AllocPlaced(max: nat, l: Layout, c: nat)
    requires Placed(l) && Owners(max, l) && c !in l.chains && c !in l.own && 2 <= c <= max
    ensures Placed(AllocLayout(l, c)) && Owners(max, AllocLayout(l, c))
  {
    var l' := AllocLayout(l, c);
    forall s, d | s in l'.chains && d in l'.chains[s] ensures d in l'.own && l'.own[d] == s {
      if s != c { assert d in l.chains[s]; }
    }
    forall d | d in l'.own ensures OwnedAt(max, l', d) {
      if d != c { assert OwnedAt(max, l, d); }
    }
  }

  lemma AllocLinked(fat: Fat, max: nat, l: Layout, c: nat)
    requires FatOk(fat, max, l) && 2 <= c <= max && c !in l.own
    ensures Linked(fat[c := EndOfChain], max, AllocLayout(l, c))
  {
    hide Owners, UsedIsOwned;
    assert Link(fat[c := EndOfChain], [c], 0);
    forall s | s in l.chains ensures s != c && ChainOk(fat[c := EndOfChain], max, s, l.chains[s]) {
      PlaceOf(fat, max, l, s, 0);
      forall d | d in l.chains[s] ensures d != c && d < |fat| { assert l.own[d] == s; }
      ChainKept(fat, fat[c := EndOfChain], max, s, l.chains[s]);
    }
  }

  function Last(ch: seq<nat>): nat
    requires ch != []
  {
    ch[|ch| - 1]
  }

  function JoinLayout(l: Layout, s: nat, t: nat): Layout
    requires s in l.chains
  {
    Layout((l.chains - {t})[s := l.chains[s] + [t]], l.own[t := s])
  }

  /** Linking the last cluster of `s` to a one-cluster chain appends that cluster. */
  lemma JoinOk(fat: Fat, max: nat, l: Layout, s: nat, t: nat)
    requires FatOk(fat, max, l) && s in l.chains && t in l.chains && s != t && l.chains[t] == [t]
    ensures l.chains[s] != [] && Last(l.chains[s]) < |fat| && t <= max
    ensures FatOk(fat[Last(l.chains[s]) := Next(t)], max, JoinLayout(l, s, t))
  {
    ChainOf(fat, max, l, s);
    PlaceOf(fat, max, l, t, 0);
    PlaceOf(fat, max, l, s, |l.chains[s]| - 1);
    var l' := JoinLayout(l, s, t);
    JoinLinked(fat, max, l, s, t);
    JoinPlaced(l, s, t);
    JoinOwners(fat, max, l, s, t);
    hide Linked, Placed, Owners, Path;
  }

  lemma ChainGrow(fat: Fat, max: nat, s: nat, ch: seq<nat>, t: nat)
    requires max < |fat| && max < 0xFFFF && ChainOk(fat, max, s, ch)
    requires 2 <= t <= max && t !in ch && fat[t] == EndOfChain
    ensures Last(ch) < |fat| && ChainOk(fat[Last(ch) := Next(t)], max, s, ch + [t])
  {
    var n := |ch| - 1;
    var fat', ch' := fat[ch[n] := Next(t)], ch + [t];
    forall i | 0 <= i < |ch'| ensures Link(fat', ch', i) {
      if i < n {
        assert Link(fat, ch, i);
        if ch[i] == ch[n] { PathEnds(fat, max, ch, i, n); }
      }
    }
  }

  lemma JoinLinked(fat: Fat, max: nat, l: Layout, s: nat, t: nat)
    requires FatOk(fat, max, l) && s in l.chains && t in l.chains && s != t && l.chains[t] == [t]
    requires ChainOk(fat, max, s, l.chains[s]) && t <= max
    ensures Linked(fat[Last(l.chains[s]) := Next(t)], max, JoinLayout(l, s, t))
  {
    hide Owners, UsedIsOwned;
    var ch := l.chains[s];
    var fat' := fat[Last(ch) := Next(t)];
    assert ChainOk(fat, max, t, [t]) && Link(fat, [t], 0) && t in l.chains[t];
    assert Last(ch) in ch;
    assert l.own[t] == t && l.own[Last(ch)] == s;
    ChainGrow(fat, max, s, ch, t);
    forall u | u in l.chains && u != s && u != t ensures ChainOk(fat', max, u, l.chains[u]) {
      forall c | c in l.chains[u] ensures c != Last(ch) && c < |fat| { assert l.own[c] == u; }
      ChainKept(fat, fat', max, u, l.chains[u]);
    }
  }

  lemma JoinPlaced(l: Layout, s: nat, t: nat)
    requires Placed(l) && s in l.chains && t in l.chains && s != t && l.chains[t] == [t]
    ensures Placed(JoinLayout(l, s, t))
  {
    var l' := JoinLayout(l, s, t);
    assert t in l.chains[t];
    forall u, c | u in l'.chains && c in l'.chains[u] ensures c in l'.own && l'.own[c] == u {
      if u != s {
        assert c in l.chains[u];
      } else if c != t {
        assert c in l.chains[s];
      }
    }
  }

  lemma JoinOwners(fat: Fat, max: nat, l: Layout, s: nat, t: nat)
    requires FatOk(fat, max, l) && s in l.chains && t in l.chains && s != t && l.chains[t] == [t]
    ensures Owners(max, JoinLayout(l, s, t))
  {
    hide Linked, UsedIsOwned;
    forall c | c in l.own ensures OwnedAt(max, JoinLayout(l, s, t), c) {
      assert OwnedAt(max, l, c);
    }
    assert t in l.chains[t];
  }

  function SplitLayout(l: Layout, s: nat, k: nat): Layout
    requires s in l.chains && 0 < k < |l.chains[s]|
  {
    var ch := l.chains[s];
    Layout(l.chains[s := ch[..k]][ch[k] := ch[k..]],
           map c | c in l.own :: if c in ch[k..] then ch[k] else l.own[c])
  }

  lemma ChainCut(fat: Fat, max: nat, s: nat, ch: seq<nat>, k: nat)
    requires max < |fat| && max < 0xFFFF && ChainOk(fat, max, s, ch) && 0 < k < |ch|
    ensures ChainOk(fat[ch[k - 1] := EndOfChain], max, s, ch[..k])
    ensures ChainOk(fat[ch[k - 1] := EndOfChain], max, ch[k], ch[k..])
    ensures forall c :: c in ch[..k] ==> c !in ch[k..]
  {
    var fat' := fat[ch[k - 1] := EndOfChain];
    forall i, j | 0 <= i < k && k <= j < |ch| ensures ch[i] != ch[j] {
      if ch[i] == ch[j] { PathEnds(fat, max, ch, i, j); }
    }
    forall i | 0 <= i < |ch| - k ensures Link(fat', ch[k..], i) {
      assert Link(fat, ch, k + i);
    }
    forall i | 0 <= i < k ensures Link(fat', ch[..k], i) {
      assert Link(fat, ch, i);
      if i < k - 1 && ch[i] == ch[k - 1] { PathEnds(fat, max, ch, i, k - 1); }
    }
  }

  /** Ending a chain early cuts it in two chains. */
  lemma SplitOk(fat: Fat, max: nat, l: Layout, s: nat, k: nat)
    requires FatOk(fat, max, l) && s in l.chains && 0 < k < |l.chains[s]|
    ensures l.chains[s][k - 1] < |fat|
    ensures l.chains[s][k] !in l.chains
    ensures FatOk(fat[l.chains[s][k - 1] := EndOfChain], max, SplitLayout(l, s, k))
  {
    var ch := l.chains[s];
    ChainOf(fat, max, l, s);
    PlaceOf(fat, max, l, s, k);
    PlaceOf(fat, max, l, s, k - 1);
    ChainCut(fat, max, s, ch, k);
    if ch[k] in l.chains {
      PlaceOf(fat, max, l, ch[k], 0);
      PathEnds(fat, max, ch, 0, k);
    }
    SplitLinked(fat, max, l, s, k);
    SplitPlaced(l, s, k);
    SplitOwners(max, l, s, k);
    hide Linked, Placed, Owners, ChainOk;
  }

  lemma SplitLinked(fat: Fat, max: nat, l: Layout, s: nat, k: nat)
    requires FatOk(fat, max, l) && s in l.chains && 0 < k < |l.chains[s]|
    requires ChainOk(fat, max, s, l.chains[s])
    ensures Linked(fat[l.chains[s][k - 1] := EndOfChain], max, SplitLayout(l, s, k))
  {
    hide Owners, UsedIsOwned;
    var ch := l.chains[s];
    ChainCut(fat, max, s, ch, k);
    forall u | u in l.chains && u != s ensures ChainOk(fat[ch[k - 1] := EndOfChain], max, u, l.chains[u]) {
      assert ch[k - 1] in ch && l.own[ch[k - 1]] == s;
      forall c | c in l.chains[u] ensures c != ch[k - 1] && c < |fat| { assert l.own[c] == u; }
      ChainKept(fat, fat[ch[k - 1] := EndOfChain], max, u, l.chains[u]);
    }
  }

  lemma SplitPlaced(l: Layout, s: nat, k: nat)
    requires Placed(l) && s in l.chains && 0 < k < |l.chains[s]|
    requires l.chains[s][k] !in l.chains
    requires forall c :: c in l.chains[s][..k] ==> c !in l.chains[s][k..]
    ensures Placed(SplitLayout(l, s, k))
  {
    var ch, l' := l.chains[s], SplitLayout(l, s, k);
    forall u, c | u in l'.chains && c in l'.chains[u]
      ensures c in l'.own && l'.own[c] == u
    {
      if u == ch[k] || u == s {
        assert c in ch;
      } else {
        assert c in l.chains[u];
        assert c !in ch;
      }
    }
  }

  lemma SplitOwners(max: nat, l: Layout, s: nat, k: nat)
    requires Owners(max, l) && Placed(l) && s in l.chains && 0 < k < |l.chains[s]|
    requires l.chains[s][k] !in l.chains
    ensures Owners(max, SplitLayout(l, s, k))
  {
    var ch := l.chains[s];
    assert ch == ch[..k] + ch[k..];
    forall c | c in l.own ensures OwnedAt(max, SplitLayout(l, s, k), c) {
      assert OwnedAt(max, l, c);
    }
  }

  function FreeAll(fat: Fat, ch: seq<nat>): Fat
  {
    seq(|fat|, c requires 0 <= c < |fat| => if c in ch then Free else fat[c])
  }

  /** The walk along `ch` yields its first `i` clusters and then meets a free one. */
  ghost predicate StopsAtFree(fat: Fat, max: nat, ch: seq<nat>, i: nat)
    requires max < |fat| && i < |ch|
  {
    WalkFrom(fat, max, ch[0]) == Oks(ch[..i]) + [Failure(CorruptFs(ReachesFree(ch[0])))]
  }

  /** A chain whose end from number `i` on has been freed. */
  lemma FreedWalk(fat: Fat, max: nat, s: nat, ch: seq<nat>, i: nat)
    requires max < |fat| && ChainOk(fat, max, s, ch) && i < |ch|
    ensures |FreeAll(fat, ch[i..])| == |fat| && StopsAtFree(FreeAll(fat, ch[i..]), max, ch, i)
  {
    FreedWalkFrom(fat, max, s, ch, i, 0, {});
    assert ch[0..i] == ch[..i];
  }

  lemma {:induction false} FreedWalkFrom(fat: Fat, max: nat, start: nat, ch: seq<nat>, i: nat, k: nat,
    visited: set<nat>)
    requires max < |fat| && Path(fat, max, ch) && k <= i < |ch|
    requires forall x :: x in visited <==> x in ch[..k]
    ensures |FreeAll(fat, ch[i..])| == |fat|
    ensures Walk(FreeAll(fat, ch[i..]), max, start, Some(ch[k]), visited) ==
      Oks(ch[k..i]) + [Failure(CorruptFs(ReachesFree(start)))]
    decreases i - k
  {
    var fat' := FreeAll(fat, ch[i..]);
    if ch[k] in visited {
      var j :| 0 <= j < k && ch[j] == ch[k];
      PathEnds(fat, max, ch, j, k);
    }
    if k == i {
      assert ch[i] == ch[i..][0] && Oks(ch[k..i]) == [];
    } else {
      assert Link(fat, ch, k);
      if ch[k] in ch[i..] {
        var j :| i <= j < |ch| && ch[j] == ch[k];
        PathEnds(fat, max, ch, j, k);
      }
      assert ch[..k + 1] == ch[..k] + [ch[k]];
      FreedWalkFrom(fat, max, start, ch, i, k + 1, visited + {ch[k]});
      assert Oks(ch[k..i]) == [Success(ch[k])] + Oks(ch[k + 1..i]);
    }
  }

  function DropLayout(l: Layout, s: nat): Layout
    requires s in l.chains
  {
    Layout(l.chains - {s}, map c | c in l.own && l.own[c] != s :: l.own[c])
  }

  /** Freeing every cluster of a chain leaves all other chains as they were. */
  lemma DropOk(fat: Fat, max: nat, l: Layout, s: nat)
    requires FatOk(fat, max, l) && s in l.chains
    ensures FatOk(FreeAll(fat, l.chains[s]), max, DropLayout(l, s))
  {
    DropLinked(fat, max, l, s);
    DropPlaced(max, l, s);
    hide Linked;
    forall c | c in l.own ensures OwnedAt(max, l, c) {}
    hide Owners;
  }

  lemma DropPlaced(max: nat, l: Layout, s: nat)
    requires Placed(l) && Owners(max, l) && s in l.chains
    ensures Placed(DropLayout(l, s)) && Owners(max, DropLayout(l, s))
  {
    forall c | c in l.own && l.own[c] != s ensures OwnedAt(max, DropLayout(l, s), c) {
      assert OwnedAt(max, l, c);
    }
  }

  lemma DropLinked(fat: Fat, max: nat, l: Layout, s: nat)
    requires FatOk(fat, max, l) && s in l.chains
    ensures Linked(FreeAll(fat, l.chains[s]), max, DropLayout(l, s))
  {
    hide Owners, UsedIsOwned;
    forall u | u in l.chains && u != s ensures ChainOk(FreeAll(fat, l.chains[s]), max, u, l.chains[u]) {
      forall c | c in l.chains[u] ensures c !in l.chains[s] && c < |fat| { assert l.own[c] == u; }
      ChainKept(fat, FreeAll(fat, l.chains[s]), max, u, l.chains[u]);
    }
  }

  lemma OwnedIsUsed(fat: Fat, max: nat, l: Layout, c: nat)
    requires FatOk(fat, max, l) && c in l.own
    ensures 2 <= c <= max && fat[c] != Free
  {
    assert OwnedAt(max, l, c);
  }

  // --- counting -----------------------------------------------------------------------------------

  ghost function FreeSet(fat: Fat, max: nat): set<nat>
    requires max < |fat|
  {
    set c | 2 <= c <= max && fat[c] == Free
  }

  /** Total length of the chains that start below `n`. */
  ghost function ChainTotal(chains: map<nat, seq<nat>>, n: nat): nat
  {
    if n == 0 then 0 else ChainTotal(chains, n - 1) + if n - 1 in chains then |chains[n - 1]| else 0
  }

  ghost function OwnedBelow(l: Layout, n: nat): set<nat> { set c | c in l.own && l.own[c] < n }

  ghost function Elems(ch: seq<nat>): set<nat> { set c | c in ch }

  lemma {:induction false} DistinctCount(ch: seq<nat>)
    requires forall i, j :: 0 <= i < j < |ch| ==> ch[i] != ch[j]
    ensures |Elems(ch)| == |ch|
  {
    if ch != [] {
      DistinctCount(ch[1..]);
      assert ch == [ch[0]] + ch[1..];
      assert Elems(ch) == Elems(ch[1..]) + {ch[0]};
    }
  }

  lemma ChainElems(fat: Fat, max: nat, l: Layout, s: nat)
    requires FatOk(fat, max, l) && s in l.chains
    ensures |Elems(l.chains[s])| == |l.chains[s]|
    ensures forall c :: c in Elems(l.chains[s]) <==> c in l.own && l.own[c] == s
  {
    hide UsedIsOwned;
    var ch := l.chains[s];
    ChainOf(fat, max, l, s);
    forall i, j | 0 <= i < j < |ch| ensures ch[i] != ch[j] {
      if ch[i] == ch[j] { PathEnds(fat, max, ch, i, j); }
    }
    DistinctCount(ch);
    forall c | c in l.own && l.own[c] == s ensures c in ch { assert OwnedAt(max, l, c); }
  }

  lemma {:induction false} OwnedCount(fat: Fat, max: nat, l: Layout, n: nat)
    requires FatOk(fat, max, l)
    ensures |OwnedBelow(l, n)| == ChainTotal(l.chains, n)
  {
    hide FatOk, Elems;
    if n == 0 {
      assert OwnedBelow(l, n) == {};
    } else {
      var s := n - 1;
      OwnedCount(fat, max, l, s);
      if s in l.chains {
        ChainElems(fat, max, l, s);
        assert OwnedBelow(l, n) == OwnedBelow(l, s) + Elems(l.chains[s]);
      } else {
        OwnersStart(fat, max, l);
        assert OwnedBelow(l, n) == OwnedBelow(l, s);
      }
    }
  }

  lemma OwnersStart(fat: Fat, max: nat, l: Layout)
    requires FatOk(fat, max, l)
    ensures forall c :: c in l.own ==> l.own[c] in l.chains
  {
    hide Linked, Placed, UsedIsOwned;
    forall c | c in l.own ensures l.own[c] in l.chains { assert OwnedAt(max, l, c); }
  }

  ghost function DataIds(max: nat): (r: set<nat>)
    requires max >= 1
    ensures forall c: nat :: c in r <==> 2 <= c <= max
    ensures |r| == max - 1
  {
    if max == 1 then {} else DataIds(max - 1) + {max}
  }

  /** Conservation: free clusters and chain lengths always add up to the number of data clusters. */
  lemma Conservation(fat: Fat, max: nat, l: Layout)
    requires FatOk(fat, max, l) && max >= 1
    ensures |FreeSet(fat, max)| + ChainTotal(l.chains, max + 1) == max - 1
  {
    OwnedCount(fat, max, l, max + 1);
    AllOwned(fat, max, l);
    hide FatOk, OwnedBelow;
    CountSplit(DataIds(max), FreeSet(fat, max), OwnedBelow(l, max + 1));
  }

  lemma CountSplit(u: set<nat>, a: set<nat>, b: set<nat>)
    requires forall c :: c in u <==> c in a || c in b
    requires a !! b
    ensures |u| == |a| + |b|
  {
    assert u == a + b;
  }

  /** Replacing one chain changes the total by the difference of the lengths. */
  lemma {:induction false} ChainTotalPut(chains: map<nat, seq<nat>>, s: nat, ch: seq<nat>, n: nat)
    ensures ChainTotal(chains[s := ch], n) + (if s < n && s in chains then |chains[s]| else 0)
      == ChainTotal(chains, n) + if s < n then |ch| else 0
  {
    if n > 0 {
      ChainTotalPut(chains, s, ch, n - 1);
    }
  }

  lemma {:induction false} ChainTotalDrop(chains: map<nat, seq<nat>>, s: nat, n: nat)
    ensures ChainTotal(chains - {s}, n) + (if s < n && s in chains then |chains[s]| else 0) == ChainTotal(chains, n)
  {
    if n > 0 {
      ChainTotalDrop(chains, s, n - 1);
    }
  }

  /** Every data cluster is either free or owned by a chain, never both. */
  lemma AllOwned(fat: Fat, max: nat, l: Layout)
    requires FatOk(fat, max, l)
    ensures forall c :: c in OwnedBelow(l, max + 1) <==> 2 <= c <= max && fat[c] != Free
  {
    forall c | c in l.own ensures 2 <= c <= max && l.own[c] <= max && fat[c] != Free {
      assert OwnedAt(max, l, c);
      PlaceOf(fat, max, l, l.own[c], 0);
    }
    hide Linked, Placed, Owners;
  }

  // --- first fit ------------------------------------------------------------------------------------

  /** The first `n` free clusters from `lo` on. */
  function LowestFree(fat: Fat, lo: nat, max: nat, n: nat): seq<nat>
    requires max < |fat|
    decreases max + 1 - lo
  {
    if n == 0 || lo > max then []
    else if fat[lo] == Free then [lo] + LowestFree(fat, lo + 1, max, n - 1)
    else LowestFree(fat, lo + 1, max, n)
  }

  /** Free clusters, in increasing order, none skipped; fewer than asked only if there are no more. */
  lemma {:induction false} LowestFreeMeaning(fat: Fat, lo: nat, max: nat, n: nat)
    requires max < |fat|
    ensures var r := LowestFree(fat, lo, max, n);
      && |r| <= n
      && (forall i :: 0 <= i < |r| ==> lo <= r[i] <= max && fat[r[i]] == Free)
      && (forall i, j :: 0 <= i < j < |r| ==> r[i] < r[j])
      && (forall c :: lo <= c <= max && fat[c] == Free && c !in r ==> |r| == n && forall i :: 0 <= i < |r| ==> r[i] < c)
    decreases max + 1 - lo
  {
    if n > 0 && lo <= max {
      LowestFreeMeaning(fat, lo + 1, max, if fat[lo] == Free then n - 1 else n);
    }
  }

  /** The lowest free cluster, 0 if there is none. */
  function FirstFit(fat: Fat, max: nat): nat
    requires max < |fat|
  {
    if LowestFree(fat, 2, max, 1) == [] then 0 else LowestFree(fat, 2, max, 1)[0]
  }

  /** First fit finds `n` clusters exactly when `n` are free. */
  lemma LowestFreeCount(fat: Fat, max: nat, n: nat)
    requires max < |fat|
    ensures |LowestFree(fat, 2, max, n)| == n <==> |FreeSet(fat, max)| >= n
  {
    var r := LowestFree(fat, 2, max, n);
    LowestFreeMeaning(fat, 2, max, n);
    DistinctCount(r);
    var rs := Elems(r);
    assert rs <= FreeSet(fat, max);
    SubsetCount(rs, FreeSet(fat, max));
    if |r| < n {
      forall c | c in FreeSet(fat, max) ensures c in rs {
        assert 2 <= c <= max && fat[c] == Free;
      }
      assert rs == FreeSet(fat, max);
    }
  }

  lemma {:induction false} SubsetCount<T>(a: set<T>, b: set<T>)
    requires a <= b
    ensures |a| <= |b|
  {
    if a != {} {
      var x :| x in a;
      SubsetCount(a - {x}, b - {x});
    }
  }

  // --- allocation of several clusters ------------------------------------------------------------

  function MarkAll(fat: Fat, out: seq<nat>): (r: Fat)
    ensures |r| == |fat|
  {
    if out == [] then fat
    else
      var c := out[|out| - 1];
      var r := MarkAll(fat, out[..|out| - 1]);
      if c < |fat| then r[c := EndOfChain] else r
  }

  function AllocAll(l: Layout, out: seq<nat>): Layout
  {
    if out == [] then l else AllocLayout(AllocAll(l, out[..|out| - 1]), out[|out| - 1])
  }

  /** Allocation marks exactly the listed clusters. */
  lemma {:induction false} MarkAllEntries(fat: Fat, out: seq<nat>)
    ensures forall c :: 0 <= c < |fat| ==> MarkAll(fat, out)[c] == if c in out then EndOfChain else fat[c]
  {
    if out != [] {
      MarkAllEntries(fat, out[..|out| - 1]);
      assert out == out[..|out| - 1] + [out[|out| - 1]];
    }
  }

  /** The new chains are the listed clusters, each alone; all other chains are as before. */
  lemma {:induction false} AllocAllChains(l: Layout, out: seq<nat>)
    ensures forall s :: s in AllocAll(l, out).chains <==> s in l.chains || s in out
    ensures forall s :: s in out ==> AllocAll(l, out).chains[s] == [s]
    ensures forall s :: s in l.chains && s !in out ==> AllocAll(l, out).chains[s] == l.chains[s]
  {
    if out != [] {
      AllocAllChains(l, out[..|out| - 1]);
      assert out == out[..|out| - 1] + [out[|out| - 1]];
    }
  }
}
