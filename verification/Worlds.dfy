/**
 The whole file system as its users see it: directories as rows of named slots, files as byte strings, ten
 cursors and a number of free clusters. One call is one step.
 */
module Worlds {
  import opened Base
  import opened Geometry
  import opened Text
  import opened Names
  import opened Directory
  import opened Tree
  import opened Replay

  /** An entry: its name, and for a directory the id that calls name it by. Times and sizes are not modelled. */
  datatype Node = Node(name: ShortName, dir: Option<nat>)

  type Row = seq<Option<Node>>

  datatype World = World(dirs: map<nat, Row>, m: Model)

  datatype Call =
    | Create(dir: nat, name: Str, now: Stamp, later: Stamp)
    | MakeDir(dir: nat, name: Str, now: Stamp, later: Stamp)
    | Remove(loc: Loc, later: Stamp)
    | RemoveDir(loc: Loc, later: Stamp)
    | SetTime(loc: Loc, now: Stamp)
    | Find(dir: nat, name: Str)
    | OnFile(op: Op)

  /** `Skipped`: the call names a directory that does not exist, which the callers never do. */
  datatype Answer = Placed(loc: Loc) | Found(loc: Loc, node: Node) | Plain(reply: Reply) | Skipped

  function Refusal(error: FsError): Answer { Plain(Refused(error)) }

  // --- rows -----------------------------------------------------------------------------------------

  function NoNodes(n: nat): Row { seq(n, _ => None) }

  predicate NodeShows(x: Option<Node>, key: Str) { x.Some? && ToStr(x.value.name) == key }

  /** The first slot from `i` on whose entry shows `key`. */
  function FindNode(row: Row, key: Str, i: nat): (r: Option<nat>)
    requires i <= |row|
    ensures r.Some? ==> i <= r.value < |row| && NodeShows(row[r.value], key)
    ensures forall j :: i <= j < |row| && (r.Some? ==> j < r.value) ==> !NodeShows(row[j], key)
    decreases |row| - i
  {
    if i == |row| then None else if NodeShows(row[i], key) then Some(i) else FindNode(row, key, i + 1)
  }

  /** The first slot from `i` on without an entry. */
  function FindEmpty(row: Row, i: nat): (r: Option<nat>)
    requires i <= |row|
    ensures r.Some? ==> i <= r.value < |row| && row[r.value].None?
    ensures forall j :: i <= j < |row| && (r.Some? ==> j < r.value) ==> row[j].Some?
    decreases |row| - i
  {
    if i == |row| then None else if row[i].None? then Some(i) else FindEmpty(row, i + 1)
  }

  predicate Empty(row: Row) { forall i :: 0 <= i < |row| ==> row[i].None? }

  // --- steps ------------------------------------------------------------------------------------------

  predicate HasNode(w: World, l: Loc)
  {
    l.dir in w.dirs && l.idx < |w.dirs[l.dir]| && w.dirs[l.dir][l.idx].Some?
  }

  function NodeOf(w: World, l: Loc): Node
    requires HasNode(w, l)
  {
    w.dirs[l.dir][l.idx].value
  }

  /** What is wrong with a location that holds no entry. */
  function NoEntry(w: World, l: Loc): FsError
  {
    if l.dir in w.dirs && l.idx < |w.dirs[l.dir]| then NotFoundAt(l) else CorruptFs(BeyondChain)
  }

  function NoFile(w: World, l: Loc): FsError { if HasNode(w, l) then IsADirectory else NoEntry(w, l) }

  /** A slot for a new entry of directory `d`: the first empty one, or the first of a new cluster of `per` slots. */
  function Claim(per: nat, w: World, d: nat): Option<(World, nat)>
    requires d in w.dirs
  {
    var row := w.dirs[d];
    match FindEmpty(row, 0)
    case Some(i) => Some((w, i))
    case None =>
      if w.m.free == 0 then None
      else Some((World(w.dirs[d := row + NoNodes(per)], w.m.(free := w.m.free - 1)), |row|))
  }

  /** Puts an entry in a slot, or takes it out. */
  function PutNode(dirs: map<nat, Row>, l: Loc, x: Option<Node>): map<nat, Row>
  {
    if l.dir in dirs && l.idx < |dirs[l.dir]| then dirs[l.dir := dirs[l.dir][l.idx := x]] else dirs
  }

  /** Why an entry of that name cannot be created, unless space is what is missing. */
  function NameCheck(row: Row, name: Str): Outcome
  {
    if Normalize(name).Failure? then Fail(InvalidName)
    else if FindNode(row, Normalize(name).value, 0).Some? then Fail(InvalidPath)
    else Pass
  }

  function StepCreate(per: nat, w: World, d: nat, name: Str): (World, Answer)
    requires d in w.dirs
  {
    match NameCheck(w.dirs[d], name)
    case Fail(error) => (w, Refusal(error))
    case Pass =>
      match Claim(per, w, d)
      case None => (w, Refusal(NoSpace))
      case Some((w1, i)) =>
        var l := Loc(d, i);
        (World(PutNode(w1.dirs, l, Some(Node(StoredName(name), None))), w1.m.(files := w1.m.files[l := []])), Placed(l))
  }

  /** The new directory gets the id `id`. Its cluster is claimed before the slot, and lost when there is none. */
  function StepMakeDir(per: nat, w: World, d: nat, name: Str, id: nat): (World, Answer)
    requires d in w.dirs
  {
    match NameCheck(w.dirs[d], name)
    case Fail(error) => (w, Refusal(error))
    case Pass =>
      if w.m.free == 0 then (w, Refusal(NoSpace))
      else
        var w0 := w.(m := w.m.(free := w.m.free - 1));
        match Claim(per, w0, d)
        case None => (w0, Refusal(NoSpace))
        case Some((w1, i)) =>
          var l := Loc(d, i);
          (w1.(dirs := PutNode(w1.dirs, l, Some(Node(StoredName(name), Some(id))))[id := NoNodes(per)]), Placed(l))
  }

  function StepRemove(cs: nat, w: World, l: Loc): (World, Answer)
    requires cs > 0
  {
    if l !in w.m.files then (w, Refusal(NoFile(w, l)))
    else if Busy(w.m.open, l) then (w, Refusal(FileOpen(l)))
    else
      (World(PutNode(w.dirs, l, None), w.m.(files := w.m.files - {l}, free := w.m.free + DivCeil(|w.m.files[l]|, cs))),
        Plain(Done))
  }

  function StepRemoveDir(per: nat, w: World, l: Loc): (World, Answer)
    requires per > 0
  {
    if !HasNode(w, l) then (w, Refusal(NoEntry(w, l)))
    else
      match NodeOf(w, l).dir
      case None => (w, Refusal(NotADirectory))
      case Some(id) =>
        if id !in w.dirs || !Empty(w.dirs[id]) then (w, Refusal(DirectoryNotEmpty))
        else (World(PutNode(w.dirs, l, None) - {id}, w.m.(free := w.m.free + |w.dirs[id]| / per)), Plain(Done))
  }

  function StepFind(w: World, d: nat, name: Str): Answer
    requires d in w.dirs
  {
    if Normalize(name).Failure? then Refusal(InvalidName)
    else
      match FindNode(w.dirs[d], Normalize(name).value, 0)
      case None => Refusal(NotFound)
      case Some(i) => Found(Loc(d, i), w.dirs[d][i].value)
  }

  function StepFile(cs: nat, w: World, op: Op): (World, Answer)
    requires cs > 0
  {
    if !Replay.Named(w.m, op) then (w, Refusal(NoFile(w, op.loc)))
    else
      var (m', reply) := Step(cs, w.m, op);
      (w.(m := m'), Plain(reply))
  }

  /** The directory a call names, if it names one. */
  function DirOf(c: Call): Option<nat>
  {
    match c
    case Create(d, _, _, _) => Some(d)
    case MakeDir(d, _, _, _) => Some(d)
    case Remove(l, _) => Some(l.dir)
    case RemoveDir(l, _) => Some(l.dir)
    case SetTime(l, _) => Some(l.dir)
    case Find(d, _) => Some(d)
    case OnFile(op) => if op.ReadAt? || op.WriteAt? || op.Truncate? || op.Open? then Some(op.loc.dir) else None
  }

  predicate Known(dirs: set<nat>, c: Call) { DirOf(c).Some? ==> DirOf(c).value in dirs }

  /** One call; `id` is the id that a new directory gets. */
  function StepCall(cs: nat, w: World, c: Call, id: nat): (World, Answer)
    requires cs >= FCB_SIZE
  {
    var per := PerCluster(cs);
    if !Known(w.dirs.Keys, c) then (w, Skipped)
    else
      match c
      case Create(d, name, _, _) => StepCreate(per, w, d, name)
      case MakeDir(d, name, _, _) => StepMakeDir(per, w, d, name, id)
      case Remove(l, _) => StepRemove(cs, w, l)
      case RemoveDir(l, _) => (DivMono(FCB_SIZE, cs, FCB_SIZE); StepRemoveDir(per, w, l))
      case SetTime(l, _) => (w, if HasNode(w, l) then Plain(Done) else Refusal(NoEntry(w, l)))
      case Find(d, name) => (w, StepFind(w, d, name))
      case OnFile(op) => StepFile(cs, w, op)
  }

  function StepCalls(cs: nat, w: World, calls: seq<Call>, ids: seq<nat>): (World, seq<Answer>)
    requires cs >= FCB_SIZE && |ids| == |calls|
    decreases |calls|
  {
    if calls == [] then (w, [])
    else
      var n := |calls| - 1;
      var (w0, answers) := StepCalls(cs, w, calls[..n], ids[..n]);
      var (w', answer) := StepCall(cs, w0, calls[n], ids[n]);
      (w', answers + [answer])
  }

  /** A file system that has just been formatted, on a volume of `clusters` clusters. */
  function Formatted(cs: nat, clusters: nat): World
    requires clusters > 0
  {
    World(map[ROOT := NoNodes(PerCluster(cs))], Model(map[], seq(MAX_OPEN_FILES, _ => None), clusters - 1))
  }

  /** Mounted again: nothing is open. */
  function Remounted(w: World): World { w.(m := w.m.(open := seq(MAX_OPEN_FILES, _ => None))) }

  // --- names --------------------------------------------------------------------------------------------

  /** No two entries of a row show one name. */
  predicate Distinct(row: Row)
  {
    forall i, j :: 0 <= i < j < |row| && row[i].Some? && row[j].Some? ==>
      ToStr(row[i].value.name) != ToStr(row[j].value.name)
  }

  predicate Printed(row: Row) { forall i :: 0 <= i < |row| && row[i].Some? ==> Printable(row[i].value.name) }

  ghost predicate WellNamed(w: World) { forall d :: d in w.dirs ==> Distinct(w.dirs[d]) && Printed(w.dirs[d]) }

  /** A call that creates no entry under a name whose base or extension ends in a space. */
  predicate Tidy(c: Call) { c.Create? || c.MakeDir? ==> Untrimmed(c.name) }

  predicate AllTidy(calls: seq<Call>) { forall i :: 0 <= i < |calls| ==> Tidy(calls[i]) }

  lemma ClearKeepsNames(dirs: map<nat, Row>, l: Loc)
    requires forall d :: d in dirs ==> Distinct(dirs[d]) && Printed(dirs[d])
    ensures var dirs' := PutNode(dirs, l, None); forall d :: d in dirs' ==> Distinct(dirs'[d]) && Printed(dirs'[d])
  {
    hide ToStr, Printable;
  }

  /** A name that the check lets pass is a new one. */
  lemma PutKeepsNames(row: Row, i: nat, name: Str, dir: Option<nat>)
    requires Distinct(row) && Printed(row) && i < |row| && row[i].None?
    requires NameCheck(row, name).Pass? && Untrimmed(name)
    ensures Distinct(row[i := Some(Node(StoredName(name), dir))])
      && Printed(row[i := Some(Node(StoredName(name), dir))])
  {
    StoredNameMatchesKey(name);
    NameRoundTrip(name);
    hide ToStr, TryFrom, Untrimmed, Normalize;
    assert Printable(StoredName(name));
    var row' := row[i := Some(Node(StoredName(name), dir))];
    forall j | 0 <= j < |row| && j != i && row[j].Some?
      ensures ToStr(row[j].value.name) != ToStr(StoredName(name))
    {
      assert !NodeShows(row[j], Normalize(name).value);
    }
  }

  lemma NoNodesNamed(n: nat)
    ensures Distinct(NoNodes(n)) && Printed(NoNodes(n))
  {
  }

  lemma ClaimKeepsNames(per: nat, w: World, d: nat, name: Str)
    requires WellNamed(w) && d in w.dirs && Claim(per, w, d).Some? && per > 0 && NameCheck(w.dirs[d], name).Pass?
    ensures var (w1, i) := Claim(per, w, d).value;
      && WellNamed(w1) && d in w1.dirs && i < |w1.dirs[d]| && w1.dirs[d][i].None? && NameCheck(w1.dirs[d], name).Pass?
  {
    hide ToStr, Printable, Normalize;
    var row, key := w.dirs[d], Normalize(name).value;
    forall j | 0 <= j < |row + NoNodes(per)| ensures !NodeShows((row + NoNodes(per))[j], key) {
      assert j < |row| ==> !NodeShows(row[j], key);
    }
    assert FindNode(row + NoNodes(per), key, 0).None?;
  }

  /** Creating under tidy names keeps all names distinct; every other call keeps them anyway. */
  lemma StepKeepsNames(cs: nat, w: World, c: Call, id: nat)
    requires cs >= FCB_SIZE && WellNamed(w) && Tidy(c)
    ensures WellNamed(StepCall(cs, w, c, id).0)
  {
    hide ToStr, Printable, Normalize, NameCheck, Distinct, Printed, Step, StoredName, Claim;
    DivMono(FCB_SIZE, cs, FCB_SIZE);
    var per := PerCluster(cs);
    NoNodesNamed(per);
    match c
    case Create(d, name, _, _) =>
      if d in w.dirs { NewNodeNamed(per, w, d, name, None); }
    case MakeDir(d, name, _, _) =>
      if d in w.dirs && w.m.free > 0 { NewNodeNamed(per, w.(m := w.m.(free := w.m.free - 1)), d, name, Some(id)); }
    case Remove(l, _) => ClearKeepsNames(w.dirs, l);
    case RemoveDir(l, _) => ClearKeepsNames(w.dirs, l);
    case _ =>
  }

  lemma NewNodeNamed(per: nat, w: World, d: nat, name: Str, dir: Option<nat>)
    requires WellNamed(w) && d in w.dirs && Untrimmed(name) && per > 0
    ensures NameCheck(w.dirs[d], name).Pass? && Claim(per, w, d).Some? ==>
      var (w1, i) := Claim(per, w, d).value;
      WellNamed(w1.(dirs := PutNode(w1.dirs, Loc(d, i), Some(Node(StoredName(name), dir)))))
  {
    hide ToStr, Printable, Normalize, Distinct, Printed, NameCheck, Claim, Untrimmed;
    if NameCheck(w.dirs[d], name).Pass? && Claim(per, w, d).Some? {
      ClaimKeepsNames(per, w, d, name);
      var (w1, i) := Claim(per, w, d).value;
      PutKeepsNames(w1.dirs[d], i, name, dir);
    }
  }

  lemma {:induction false} CallsKeepNames(cs: nat, w: World, calls: seq<Call>, ids: seq<nat>)
    requires cs >= FCB_SIZE && |ids| == |calls| && WellNamed(w) && AllTidy(calls)
    ensures WellNamed(StepCalls(cs, w, calls, ids).0)
    decreases |calls|
  {
    hide WellNamed, Tidy, StepCall;
    if calls != [] {
      var n := |calls| - 1;
      CallsKeepNames(cs, w, calls[..n], ids[..n]);
      StepKeepsNames(cs, StepCalls(cs, w, calls[..n], ids[..n]).0, calls[n], ids[n]);
    }
  }

  // --- what the steps mean --------------------------------------------------------------------------------

  /** What is created under a tidy name is found under it, in capitals or not. */
  lemma CreatedIsFound(per: nat, w: World, d: nat, name: Str, other: Str)
    requires SameLetters(name, other)
    requires per > 0 && d in w.dirs && Untrimmed(name) && StepCreate(per, w, d, name).1.Placed?
    ensures var (w', a) := StepCreate(per, w, d, name);
      && a.loc.dir == d && d in w'.dirs && a.loc in w'.m.files && w'.m.files[a.loc] == []
      && StepFind(w', d, other) == Found(a.loc, Node(StoredName(name), None))
  {
    hide ToStr, Normalize, TryFrom, Untrimmed, FindNode, FindEmpty;
    StoredNameMatchesKey(name);
    NormalizeTwice(name);
    NamesMeet(name, other);
    var (w1, i) := Claim(per, w, d).value;
    var key, row, row1 := Normalize(name).value, w.dirs[d], w1.dirs[d];
    assert ToStr(StoredName(name)) == key && i < |row1|;
    forall j | 0 <= j < |row1| ensures !NodeShows(row1[j], key) {
      assert j < |row| ==> !NodeShows(row[j], key);
    }
    PutIsFound(row1, i, Node(StoredName(name), None));
  }

  lemma PutIsFound(row: Row, i: nat, x: Node)
    requires i < |row| && forall j :: 0 <= j < |row| ==> !NodeShows(row[j], ToStr(x.name))
    ensures FindNode(row[i := Some(x)], ToStr(x.name), 0) == Some(i)
  {
    hide ToStr;
    var row' := row[i := Some(x)];
    assert NodeShows(row'[i], ToStr(x.name)) && forall j :: 0 <= j < |row| && j != i ==> row'[j] == row[j];
  }

  /** Where names are distinct, what is removed is not found any more. */
  lemma RemovedIsLost(cs: nat, w: World, l: Loc)
    requires cs > 0 && WellNamed(w) && HasNode(w, l) && StepRemove(cs, w, l).1 == Plain(Done)
    ensures var w' := StepRemove(cs, w, l).0;
      l !in w'.m.files && l.dir in w'.dirs && StepFind(w', l.dir, ToStr(NodeOf(w, l).name)) == Refusal(NotFound)
  {
    PrintIsKey(NodeOf(w, l).name) by { assert Printed(w.dirs[l.dir]); }
    hide ToStr, Normalize, Printable;
    var w' := StepRemove(cs, w, l).0;
    var key := ToStr(NodeOf(w, l).name);
    assert Distinct(w.dirs[l.dir]);
    forall j | 0 <= j < |w'.dirs[l.dir]| ensures !NodeShows(w'.dirs[l.dir][j], key) {
      assert j != l.idx ==> w'.dirs[l.dir][j] == w.dirs[l.dir][j];
    }
  }

  /** "A" and "B" are names, and different ones. */
  lemma TwoNames()
    ensures Normalize([65]) == Success([65]) && Normalize([66]) == Success([66])
    ensures ToStr(StoredName([65])) == [65]
  {
    OneLetter(65);
    OneLetter(66);
  }

  lemma OneLetter(c: byte)
    requires 65 <= c <= 90
    ensures Normalize([c]) == Success([c]) && ToStr(StoredName([c])) == [c]
  {
    var s: Str := [c];
    assert ToUpper(s) == s;
    SplitNone(s, DOT);
    assert TrimEnd(s) == s && TrimEnd([]) == [];
    FromPartsBuild([s]);
    TrimPad(s, BASE_SIZE);
    TrimPad([], EXT_SIZE);
  }

  /**
   A volume of five blocks of 32 bytes: one file takes the only slot of the root, and then making a directory
   takes the last cluster and fails for want of a slot.
   */
  lemma MkdirLosesCluster(now: Stamp, later: Stamp, i: nat, j: nat)
    ensures Validate(FsConfig(32, 5, 1)).Pass?
    ensures var b := BootOf(FsConfig(32, 5, 1)); ClusterSize(b) == 32 && DataClusterCount(b) == 2
    ensures var (w, answers) :=
        StepCalls(32, Formatted(32, 2), [Create(ROOT, [65], now, later), MakeDir(ROOT, [66], now, later)], [i, j]);
      && answers == [Placed(Loc(ROOT, 0)), Refusal(NoSpace)]
      && w.m.free == 0 && w.dirs.Keys == {ROOT} && w.m.files == map[Loc(ROOT, 0) := []]
  {
    SmallVolume();
    TwoNames();
    hide Normalize, ToStr, StoredName, Validate;
    var w0 := Formatted(32, 2);
    var create, make := Create(ROOT, [65], now, later), MakeDir(ROOT, [66], now, later);
    assert w0.dirs[ROOT] == [None];
    assert FindNode([None], [65], 0) == None && FindEmpty([None], 0) == Some(0);
    var (w1, a1) := StepCall(32, w0, create, i);
    var x := Some(Node(StoredName([65]), None));
    assert a1 == Placed(Loc(ROOT, 0)) && w1.dirs[ROOT] == [x] && w1.m.free == 1;
    var a: Str, b: Str := [65], [66];
    assert a[0] != b[0] && !NodeShows(x, b);
    assert FindNode([x], b, 0) == None && FindEmpty([x], 0) == None;
    var (w2, a2) := StepCall(32, w1, make, j);
    assert a2 == Refusal(NoSpace) && w2.m.free == 0;
    hide StepCall;
    StepOne(32, w0, create, i);
    StepTwo(32, w0, create, make, i, j);
  }

  /** Creating "A" and then "A " makes two entries of one name; nothing finds the second under the name it was given. */
  lemma TrailingSpaceRun(now: Stamp, later: Stamp, i: nat, j: nat)
    ensures Validate(FsConfig(64, 4, 1)).Pass?
    ensures var b := BootOf(FsConfig(64, 4, 1)); ClusterSize(b) == 64 && DataClusterCount(b) == 1
    ensures var (w, answers) := StepCalls(64, Formatted(64, 1),
        [Create(ROOT, [65], now, later), Create(ROOT, [65, SPACE], now, later)], [i, j]);
      && answers == [Placed(Loc(ROOT, 0)), Placed(Loc(ROOT, 1))]
      && ROOT in w.dirs && !Distinct(w.dirs[ROOT]) && StepFind(w, ROOT, [65, SPACE]) == Refusal(NotFound)
  {
    hide Normalize, ToStr, TryFrom, Validate, StepCall, FindNode, FindEmpty, StoredName, StepCalls, Distinct, StepFind;
    TinyVolume();
    OneLetter(65);
    SpaceStored();
    var w0 := Formatted(64, 1);
    var a: Str, b: Str := [65], [65, SPACE];
    var first, second := Create(ROOT, a, now, later), Create(ROOT, b, now, later);
    var x, y := Some(Node(StoredName(a), None)), Some(Node(StoredName(b), None));
    assert |a| != |b| && NodeShows(x, a) && NodeShows(y, a) && !NodeShows(x, b) && !NodeShows(y, b);
    RowOfTwo(None, None, a);
    RowOfTwo(x, None, b);
    RowOfTwo(x, y, b);
    assert w0.dirs[ROOT] == [None, None];
    CreateIs(64, w0, ROOT, a, 0, now, later, i);
    var w1 := StepCall(64, w0, first, i).0;
    assert w1.dirs[ROOT] == [x, None];
    CreateIs(64, w1, ROOT, b, 1, now, later, j);
    var w2 := StepCall(64, w1, second, j).0;
    assert w2.dirs[ROOT] == [x, y];
    AlikeEntries(w2, x, y, b);
    StepTwo(64, w0, first, second, i, j);
  }

  lemma AlikeEntries(w: World, x: Option<Node>, y: Option<Node>, key: Str)
    requires ROOT in w.dirs && w.dirs[ROOT] == [x, y] && Normalize(key) == Success(key)
    requires x.Some? && y.Some? && ToStr(x.value.name) == ToStr(y.value.name) && FindNode([x, y], key, 0) == None
    ensures !Distinct(w.dirs[ROOT]) && StepFind(w, ROOT, key) == Refusal(NotFound)
  {
    hide ToStr, Normalize, FindNode;
    var row := w.dirs[ROOT];
    assert row[0] == x && row[1] == y;
  }

  lemma SpaceStored()
    ensures Normalize([65, SPACE]) == Success([65, SPACE]) && ToStr(StoredName([65, SPACE])) == [65]
  {
    hide ToStr, TryFrom, Normalize;
    TrailingSpaceIsLost();
  }

  lemma RowOfTwo(x: Option<Node>, y: Option<Node>, key: Str)
    ensures !NodeShows(x, key) && !NodeShows(y, key) ==> FindNode([x, y], key, 0) == None
    ensures FindEmpty([x, y], 0) == if x.None? then Some(0) else if y.None? then Some(1) else None
  {
    hide ToStr;
  }

  /** Creating a file in an empty slot. */
  lemma CreateIs(cs: nat, w: World, d: nat, name: Str, k: nat, now: Stamp, later: Stamp, id: nat)
    requires cs >= FCB_SIZE && d in w.dirs && k < |w.dirs[d]| && Normalize(name) == Success(name)
    requires FindNode(w.dirs[d], name, 0).None? && FindEmpty(w.dirs[d], 0) == Some(k)
    ensures StepCall(cs, w, Create(d, name, now, later), id) ==
      (World(w.dirs[d := w.dirs[d][k := Some(Node(StoredName(name), None))]],
        w.m.(files := w.m.files[Loc(d, k) := []])), Placed(Loc(d, k)))
  {
    hide Normalize, FindNode, FindEmpty, StoredName;
  }

  lemma TinyVolume()
    ensures Validate(FsConfig(64, 4, 1)).Pass?
    ensures var b := BootOf(FsConfig(64, 4, 1)); ClusterSize(b) == 64 && DataClusterCount(b) == 1
  {
    assert IsPow2(2) && IsPow2(4) && IsPow2(8) && IsPow2(16) && IsPow2(32) && IsPow2(64);
    assert NeededFatBlocks(64, 4, 2, 1, 1) == 1;
    FatSizing(64, 4, 2, 1);
    ValidateIff(FsConfig(64, 4, 1));
  }

  lemma StepOne(cs: nat, w: World, c: Call, i: nat)
    requires cs >= FCB_SIZE
    ensures var (w1, a) := StepCall(cs, w, c, i); StepCalls(cs, w, [c], [i]) == (w1, [a])
  {
    hide StepCall;
    var calls, ids := [c], [i];
    assert calls[..0] == [] && ids[..0] == [];
    assert StepCalls(cs, w, calls[..0], ids[..0]) == (w, []);
    assert [] + [StepCall(cs, w, c, i).1] == [StepCall(cs, w, c, i).1];
  }

  lemma StepTwo(cs: nat, w: World, c: Call, c': Call, i: nat, j: nat)
    requires cs >= FCB_SIZE
    ensures var (w1, a) := StepCall(cs, w, c, i);
      var (w2, a') := StepCall(cs, w1, c', j);
      StepCalls(cs, w, [c, c'], [i, j]) == (w2, [a, a'])
  {
    hide StepCall;
    StepOne(cs, w, c, i);
    var calls, ids := [c, c'], [i, j];
    assert calls[..1] == [c] && ids[..1] == [i];
    var (w1, a) := StepCall(cs, w, c, i);
    var (w2, a') := StepCall(cs, w1, c', j);
    assert StepCalls(cs, w, calls[..1], ids[..1]) == (w1, [a]);
    assert [a] + [a'] == [a, a'];
  }

  lemma SmallVolume()
    ensures Validate(FsConfig(32, 5, 1)).Pass?
    ensures var b := BootOf(FsConfig(32, 5, 1)); ClusterSize(b) == 32 && DataClusterCount(b) == 2
  {
    assert IsPow2(2) && IsPow2(4) && IsPow2(8) && IsPow2(16) && IsPow2(32);
    assert NeededFatBlocks(32, 5, 2, 1, 1) == 1;
    FatSizing(32, 5, 2, 1);
    ValidateIff(FsConfig(32, 5, 1));
  }
}
