/** Shared vocabulary: machine integers, results, errors and integer division. */
module Base {
  type byte = n: nat | n < 0x100
  type u16 = n: nat | n < 0x1_0000
  type u32 = n: nat | n < 0x1_0000_0000
  type usize = n: nat | n < 0x1_0000_0000_0000_0000

  const USIZE_LIMIT: nat := 0x1_0000_0000_0000_0000
  const U32_LIMIT: nat := 0x1_0000_0000

  datatype Option<+T> = None | Some(value: T)

  /** Location of a directory entry: start cluster of the directory, index of the slot. */
  datatype Loc = Loc(dir: nat, idx: nat)

  /** Why the on-disk structures are rejected. */
  datatype Corruption =
    | OutsideRegion(cluster: nat)
    | ChainLoop(cluster: nat)
    | ReachesFree(start: nat)
    | FatCacheSize
    | BeyondChain
    | ChainTooShort
    | BadChainHead(cluster: nat)
    | WriteSize
    | BadBootSector

  datatype FsError =
    | InvalidConfig
    | InvalidName
    | InvalidPath
    | NotFound
    | NotFoundAt(loc: Loc)
    | NotADirectory
    | IsADirectory
    | DirectoryNotEmpty
    | NoSpace
    | TooManyOpenFiles
    | AlreadyOpen(openLoc: Loc)
    | FileOpen(busyLoc: Loc)
    | InvalidHandle(handle: nat)
    | SeekOutOfBounds(pos: nat)
    | CorruptFs(why: Corruption)
    | DeviceFault

  datatype Result<+T> = Success(value: T) | Failure(error: FsError) {
    predicate IsFailure() { Failure? }
    function PropagateFailure<U>(): Result<U>
      requires Failure?
    {
      Failure(error)
    }
    function Extract(): T
      requires Success?
    {
      value
    }
  }

  datatype Outcome = Pass | Fail(error: FsError) {
    predicate IsFailure() { Fail? }
    function PropagateFailure<U>(): Result<U>
      requires Fail?
    {
      Failure(error)
    }
  }

  function Min(a: int, b: int): int { if a <= b then a else b }

  function Max(a: int, b: int): int { if a <= b then b else a }

  function DivCeil(a: nat, b: nat): nat
    requires b > 0
  {
    if a % b == 0 then a / b else a / b + 1
  }

  /** `DivCeil` is the least multiple count that covers `a`. */
  lemma DivCeilBounds(a: nat, b: nat)
    requires b > 0
    ensures a <= DivCeil(a, b) * b < a + b
  {
    assert a == a / b * b + a % b;
    if a % b != 0 {
      assert (a / b + 1) * b == a / b * b + b;
    }
  }

  /** Bytes in the units of `b` bytes that `a` bytes need. */
  function Whole(a: nat, b: nat): nat
    requires b > 0
  {
    DivCeil(a, b) * b
  }

  lemma WholeBounds(a: nat, b: nat)
    requires b > 0
    ensures a <= Whole(a, b) < a + b && (Whole(a, b) == 0 <==> a == 0)
  {
    DivCeilBounds(a, b);
  }

  lemma WholeRest(a: nat, b: nat)
    requires b > 0
    ensures Whole(a, b) == if a % b == 0 then a else a + (b - a % b)
  {
    assert a == a / b * b + a % b;
    assert (a / b + 1) * b == a / b * b + b;
  }

  lemma WholeMono(a: nat, a': nat, b: nat)
    requires b > 0 && a <= a'
    ensures Whole(a, b) <= Whole(a', b)
  {
    DivCeilMono(a, a', b);
    MulMono(DivCeil(a, b), DivCeil(a', b), b);
  }

  /** Units missing to hold `end` bytes where `a` bytes are held. */
  function Missing(a: nat, end: nat, b: nat): nat
    requires b > 0
  {
    Max(0, DivCeil(end, b) - DivCeil(a, b))
  }

  lemma MissingNone(a: nat, end: nat, b: nat)
    requires b > 0
    ensures end <= a ==> Missing(a, end, b) == 0
    ensures a <= end ==> Missing(end, a, b) == 0
  {
    if end <= a { DivCeilMono(end, a, b); }
    if a <= end { DivCeilMono(a, end, b); }
  }

  lemma MissingFills(a: nat, end: nat, b: nat)
    requires b > 0
    ensures Whole(a, b) + Missing(a, end, b) * b == Whole(Max(a, end), b)
    ensures end <= Whole(Max(a, end), b)
  {
    WholeBounds(Max(a, end), b);
    if end <= a { DivCeilMono(end, a, b); } else { DivCeilMono(a, end, b); }
    assert (DivCeil(a, b) + Missing(a, end, b)) * b == DivCeil(a, b) * b + Missing(a, end, b) * b;
  }

  lemma DivCeilMono(a: nat, a': nat, b: nat)
    requires b > 0 && a <= a'
    ensures DivCeil(a, b) <= DivCeil(a', b)
  {
    DivCeilBounds(a, b);
    DivCeilBounds(a', b);
    MulOrder(DivCeil(a', b), DivCeil(a, b), b);
  }

  lemma MulMono(a: nat, a': nat, b: nat)
    requires a <= a'
    ensures a * b <= a' * b
  {
  }

  lemma MulOrder(p: nat, q: nat, b: nat)
    requires b > 0
    ensures p < q ==> p * b + b <= q * b
  {
    if p < q {
      MulMono(p + 1, q, b);
      assert (p + 1) * b == p * b + b;
    }
  }

  lemma DivMono(a: nat, a': nat, b: nat)
    requires b > 0 && a <= a'
    ensures a / b <= a' / b
  {
    assert a == a / b * b + a % b;
    assert a' == a' / b * b + a' % b;
    MulOrder(a' / b, a / b, b);
  }

  /** Quotient and remainder are determined by `a == q * b + r`. */
  lemma DivModUnique(a: nat, b: nat, q: nat, r: nat)
    requires b > 0 && r < b && a == q * b + r
    ensures a / b == q && a % b == r
  {
    assert a == a / b * b + a % b;
    MulOrder(a / b, q, b);
    MulOrder(q, a / b, b);
  }
}
