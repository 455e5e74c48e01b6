/**
 Whole sessions on the disk: every sequence of calls, from formatting on, is a run of the model in `Worlds`,
 answer by answer, and mounting the volume again shows the state it has reached.
 */
module Session {
  import opened Base
  import opened Geometry
  import opened FatChains
  import opened Text
  import opened Names
  import opened Directory
  import opened Device
  import opened Persist
  import opened Tree
  import opened Namespace
  import opened FileSystem
  import Resolve
  import opened Replay
  import opened Worlds

  // --- the model of a mounted file system ---------------------------------------------------------------

  function EntryNode(f: Fcb): Node { Node(f.name, if f.IsDir() then Some(f.start) else None) }

  function NodeAt(v: View, l: Loc): Option<Node>
  {
    if IsEntry(v, l) then Some(EntryNode(v.dirs[l.dir][l.idx].fcb)) else None
  }

  function RowOf(v: View, d: nat): Row
    requires d in v.dirs
  {
    seq(|v.dirs[d]|, i requires 0 <= i < |v.dirs[d]| => NodeAt(v, Loc(d, i)))
  }

  ghost function RowsOf(v: View): map<nat, Row> { map d | d in v.dirs :: RowOf(v, d) }

  ghost function WorldOf(v: View, open: seq<Option<OpenFile>>, free: nat): World
  {
    World(RowsOf(v), ModelOf(v, open, free))
  }

  ghost function Seen(fs: MyFileSystem): World
    requires fs.Sized()
    reads fs, fs.device.inner
  {
    WorldOf(fs.view, fs.openFiles, fs.FreeCount())
  }

  lemma RowIs(v: View, d: nat, key: Str)
    requires d in v.dirs
    ensures FindNode(RowOf(v, d), key, 0) == FindName(v.dirs[d], key, 0)
    ensures FindEmpty(RowOf(v, d), 0) == FindFree(v.dirs[d], 0)
    ensures Empty(RowOf(v, d)) <==> Count(v.dirs[d]) == 0
  {
    hide ToStr;
    CountBound(v.dirs[d]);
    var row, slots := RowOf(v, d), v.dirs[d];
    assert forall i :: 0 <= i < |slots| ==> (NodeShows(row[i], key) <==> Shows(slots[i], key));
    assert forall i :: 0 <= i < |slots| ==> (row[i].Some? <==> slots[i].Occupied?);
  }

  /** The rows follow from the number of slots and the entries. */
  lemma RowsFrom(v: View, rows: map<nat, Row>)
    requires rows.Keys == v.dirs.Keys
    requires forall d :: d in v.dirs ==> |rows[d]| == |v.dirs[d]|
    requires forall d, i :: d in v.dirs && 0 <= i < |rows[d]| ==> rows[d][i] == NodeAt(v, Loc(d, i))
    ensures RowsOf(v) == rows
  {
    hide NodeAt;
    forall d | d in v.dirs ensures RowOf(v, d) == rows[d] {
    }
  }

  /** Creating an entry gives its location a node and leaves all others. */
  lemma AddedNodes(v: View, l: Loc, f: Fcb, later: Stamp, v': View, l1: Loc)
    requires Added(v, l, f, later, v')
    ensures NodeAt(v', l1) == if l1 == l then Some(EntryNode(f)) else NodeAt(v, l1)
  {
    hide Files, DirBytes;
    if l1 == l {
    } else if IsEntry(v, l1) {
      assert EntryAt(v, l1, v.dirs[l1.dir][l1.idx].fcb);
    }
  }

  lemma RemovedNodes(v: View, l: Loc, f: Fcb, later: Stamp, v': View, l1: Loc)
    requires Removed(v, l, f, later, v')
    ensures NodeAt(v', l1) == if l1 == l then None else NodeAt(v, l1)
  {
    hide Files, DirBytes;
    if l1 != l && IsEntry(v, l1) {
      assert EntryAt(v, l1, v.dirs[l1.dir][l1.idx].fcb);
    }
  }

  /** Entries that keep place, name and kind keep the rows. */
  lemma KeptRows(v: View, v': View)
    requires EntriesKept(v, v')
    ensures RowsOf(v') == RowsOf(v)
  {
    forall l ensures NodeAt(v', l) == NodeAt(v, l) {
      if IsEntry(v, l) {
        assert EntryAt(v, l, v.dirs[l.dir][l.idx].fcb) && EntryAt(v', l, v'.dirs[l.dir][l.idx].fcb);
      }
    }
    CountsKeys(v, v');
    hide NodeAt, EntryNode, EntriesKept;
    RowsFrom(v', RowsOf(v));
  }

  lemma TouchedKeeps(v: View, open: seq<Option<OpenFile>>, l: Loc, now: Stamp, v': View, open': seq<Option<OpenFile>>)
    requires Touched(v, open, l, now, v', open')
    ensures EntriesKept(v, v') && Files(v') == Files(v)
  {
    hide Files, Lost, Retarget;
    var f' := v.dirs[l.dir][l.idx].fcb.(mtime := now.mtime, mdate := now.mdate);
    assert EntryAt(v', l, f');
    forall l1 ensures IsEntry(v', l1) <==> IsEntry(v, l1) {
      if IsEntry(v', l1) { assert EntryAt(v', l1, v'.dirs[l1.dir][l1.idx].fcb); }
      if IsEntry(v, l1) { assert EntryAt(v', l1, if l1 == l then f' else v.dirs[l1.dir][l1.idx].fcb); }
    }
  }

  lemma CountsKeys(v: View, v': View)
    requires SlotCounts(v') == SlotCounts(v)
    ensures v'.dirs.Keys == v.dirs.Keys && forall d :: d in v.dirs ==> |v'.dirs[d]| == |v.dirs[d]|
  {
    assert v'.dirs.Keys == SlotCounts(v').Keys && v.dirs.Keys == SlotCounts(v).Keys;
    assert forall d :: d in v.dirs ==> SlotCounts(v)[d] == |v.dirs[d]|;
    assert forall d :: d in v'.dirs ==> SlotCounts(v')[d] == |v'.dirs[d]|;
  }

  // --- one call on the disk is one step of the model ----------------------------------------------------

  /** The rows after an entry was put into a slot that was looked for, maybe that of the new directory `id`. */
  function RowsAfter(rows: map<nat, Row>, per: nat, l: Loc, x: Node): map<nat, Row>
    requires l.dir in rows
  {
    var row := rows[l.dir];
    var claimed := if FindEmpty(row, 0).Some? then rows else rows[l.dir := row + NoNodes(per)];
    var put := PutNode(claimed, l, Some(x));
    if x.dir.Some? then put[x.dir.value := NoNodes(per)] else put
  }

  /** The slot that is found or made for a new entry of directory `d`. */
  function PlaceFor(rows: map<nat, Row>, d: nat): Loc
    requires d in rows
  {
    Loc(d, match FindEmpty(rows[d], 0) case Some(i) => i case None => |rows[d]|)
  }

  lemma RowsAfterShape(rows: map<nat, Row>, per: nat, l: Loc, x: Node)
    requires l.dir in rows && l == PlaceFor(rows, l.dir) && per > 0 && (x.dir.Some? ==> x.dir.value !in rows)
    ensures var rows' := RowsAfter(rows, per, l, x);
      && rows'.Keys == rows.Keys + (if x.dir.Some? then {x.dir.value} else {})
      && (forall d :: d in rows ==>
            |rows'[d]| == |rows[d]| + if d == l.dir && FindEmpty(rows[d], 0).None? then per else 0)
      && (forall d, i :: d in rows && 0 <= i < |rows'[d]| ==>
            rows'[d][i] == if Loc(d, i) == l then Some(x) else if i < |rows[d]| then rows[d][i] else None)
      && (x.dir.Some? ==> rows'[x.dir.value] == NoNodes(per))
  {
  }

  lemma NodesInRows(v: View, d: nat, i: nat)
    requires d in v.dirs
    ensures |RowOf(v, d)| == |v.dirs[d]|
    ensures NodeAt(v, Loc(d, i)) == if i < |v.dirs[d]| then RowOf(v, d)[i] else None
  {
  }

  lemma NoNodesLen(n: nat)
    ensures |NoNodes(n)| == n
  {
  }

  lemma NodeNowhere(v: View, l: Loc)
    requires l.dir !in v.dirs
    ensures NodeAt(v, l) == None
  {
  }

  lemma PlaceIs(v: View, d: nat)
    requires d in v.dirs
    ensures d in RowsOf(v) && PlaceFor(RowsOf(v), d) == SlotFor(v, d)
    ensures FindEmpty(RowsOf(v)[d], 0).None? <==> !SlotIsFree(v, d)
  {
    RowIs(v, d, []);
    hide FindEmpty, FindFree;
  }

  /** The slot counts after adding, as a caller sees them. */
  ghost function CountsAdded(v: View, l: Loc, f: Fcb, per: nat): map<nat, nat>
    requires l.dir in v.dirs
  {
    if f.IsDir() then RoomCounts(v, l.dir, per)[f.start as nat := per] else RoomCounts(v, l.dir, per)
  }

  lemma CountsAddedShape(v: View, l: Loc, f: Fcb, per: nat)
    requires l.dir in v.dirs && (f.IsDir() ==> f.start !in v.dirs)
    ensures CountsAdded(v, l, f, per).Keys == v.dirs.Keys + if f.IsDir() then {f.start as nat} else {}
    ensures forall d :: d in v.dirs ==>
      CountsAdded(v, l, f, per)[d] == |v.dirs[d]| + if d == l.dir && !SlotIsFree(v, d) then per else 0
    ensures f.IsDir() ==> CountsAdded(v, l, f, per)[f.start] == per
  {
    RoomKeys(v, l.dir, per);
    hide RoomCounts, SlotIsFree;
  }

  lemma RowsAdded(v: View, l: Loc, f: Fcb, later: Stamp, v': View, per: nat)
    requires l.dir in v.dirs && l == SlotFor(v, l.dir) && Added(v, l, f, later, v') && per > 0
    requires f.IsDir() ==> f.start !in v.dirs
    requires SlotCounts(v') == CountsAdded(v, l, f, per)
    ensures PlaceFor(RowsOf(v), l.dir) == l && RowsOf(v') == RowsAfter(RowsOf(v), per, l, EntryNode(f))
  {
    PlaceIs(v, l.dir);
    RowsAddedCounts(v, l, f, v', per);
    RowsAddedNodes(v, l, f, later, v', per);
    hide Added, EntryNode, RowsAfter, RowOf, RowsOf, NodeAt, CountsAdded, SlotCounts, PlaceFor, SlotFor;
    RowsFrom(v', RowsAfter(RowsOf(v), per, l, EntryNode(f)));
  }

  lemma RowsAddedCounts(v: View, l: Loc, f: Fcb, v': View, per: nat)
    requires l.dir in v.dirs && l == SlotFor(v, l.dir) && per > 0 && (f.IsDir() ==> f.start !in v.dirs)
    requires SlotCounts(v') == CountsAdded(v, l, f, per) && l.dir in RowsOf(v)
    ensures var rows := RowsAfter(RowsOf(v), per, l, EntryNode(f));
      rows.Keys == v'.dirs.Keys && forall d :: d in v'.dirs ==> |rows[d]| == |v'.dirs[d]|
  {
    hide EntryNode, CountsAdded, NoNodes, RowsAfter, RowOf, RowsOf, NodeAt, RoomCounts, FindEmpty, FindFree,
      SlotCounts, PlaceFor, SlotFor, SlotIsFree;
    RowsKeys(v);
    PlaceIs(v, l.dir);
    KindOfNode(f);
    CountsAddedShape(v, l, f, per);
    RowsAfterShape(RowsOf(v), per, l, EntryNode(f));
    CountsAre(v', CountsAdded(v, l, f, per));
    assert |NoNodes(per)| == per by { NoNodesLen(per); }
    forall d | d in v'.dirs ensures |RowsAfter(RowsOf(v), per, l, EntryNode(f))[d]| == |v'.dirs[d]| {
      if d in v.dirs { NodesInRows(v, d, 0); }
    }
  }

  lemma RowsAddedNodes(v: View, l: Loc, f: Fcb, later: Stamp, v': View, per: nat)
    requires l.dir in v.dirs && l == SlotFor(v, l.dir) && Added(v, l, f, later, v') && per > 0
    requires (f.IsDir() ==> f.start !in v.dirs) && l.dir in RowsOf(v)
    ensures var rows := RowsAfter(RowsOf(v), per, l, EntryNode(f));
      forall d, i :: d in rows && 0 <= i < |rows[d]| ==> rows[d][i] == NodeAt(v', Loc(d, i))
  {
    hide Added, EntryNode, RowsAfter, RowOf, RowsOf, NodeAt, FindEmpty, FindFree, PlaceFor, SlotFor, SlotIsFree;
    RowsKeys(v);
    PlaceIs(v, l.dir);
    KindOfNode(f);
    RowsAfterShape(RowsOf(v), per, l, EntryNode(f));
    var rows := RowsAfter(RowsOf(v), per, l, EntryNode(f));
    forall d, i | d in rows && 0 <= i < |rows[d]| ensures rows[d][i] == NodeAt(v', Loc(d, i)) {
      AddedNodes(v, l, f, later, v', Loc(d, i));
      if d in v.dirs { NodesInRows(v, d, i); } else { NodeNowhere(v, Loc(d, i)); }
    }
  }

  lemma KindOfNode(f: Fcb)
    ensures EntryNode(f).dir == if f.IsDir() then Some(f.start) else None
    ensures EntryNode(f).name == f.name
  {
  }

  lemma CountsAre(v: View, counts: map<nat, nat>)
    requires SlotCounts(v) == counts
    ensures v.dirs.Keys == counts.Keys && forall d :: d in v.dirs ==> |v.dirs[d]| == counts[d]
  {
    assert v.dirs.Keys == SlotCounts(v).Keys;
    assert forall d :: d in v.dirs ==> SlotCounts(v)[d] == |v.dirs[d]|;
  }

  lemma RoomKeys(v: View, d: nat, per: nat)
    requires d in v.dirs
    ensures RoomCounts(v, d, per).Keys == v.dirs.Keys
    ensures forall k :: k in v.dirs ==>
      RoomCounts(v, d, per)[k] == |v.dirs[k]| + if k == d && !SlotIsFree(v, d) then per else 0
  {
  }

  lemma RowsRemoved(v: View, l: Loc, f: Fcb, later: Stamp, v': View)
    requires Removed(v, l, f, later, v') && (f.IsDir() ==> f.start != l.dir)
    requires SlotCounts(v') == SlotCounts(v) - if f.IsDir() then {f.start as nat} else {}
    ensures RowsOf(v') == PutNode(RowsOf(v), l, None) - if f.IsDir() then {f.start as nat} else {}
  {
    hide Removed, NodeAt, RowOf, RowsOf, SlotCounts;
    RemovedEntry(v, l, f, later, v');
    RowsKeys(v);
    CountsAre(v', SlotCounts(v) - if f.IsDir() then {f.start as nat} else {});
    CountsAre(v, SlotCounts(v));
    var rows := PutNode(RowsOf(v), l, None) - if f.IsDir() then {f.start as nat} else {};
    NodesInRows(v, l.dir, l.idx);
    forall d | d in rows ensures |rows[d]| == |v'.dirs[d]| {
      NodesInRows(v, d, 0);
    }
    forall d, i | d in v'.dirs && 0 <= i < |rows[d]| ensures rows[d][i] == NodeAt(v', Loc(d, i)) {
      RemovedNodes(v, l, f, later, v', Loc(d, i));
      NodesInRows(v, d, i);
    }
    RowsFrom(v', rows);
  }

  lemma CheckIs(v: View, d: nat, name: Str)
    requires d in v.dirs
    ensures NameCheck(RowOf(v, d), name) == CreateCheck(v, d, name)
  {
    if Normalize(name).Success? { RowIs(v, d, Normalize(name).value); }
    hide Normalize, FindName, FindNode;
  }

  /** What creating a file is to the model. */
  lemma StepCreateIs(per: nat, w: World, d: nat, name: Str)
    requires d in w.dirs && NameCheck(w.dirs[d], name).Pass?
    ensures var l, full := PlaceFor(w.dirs, d), FindEmpty(w.dirs[d], 0).None?;
      StepCreate(per, w, d, name) ==
      if full && w.m.free == 0 then (w, Refusal(NoSpace))
      else
        (World(RowsAfter(w.dirs, per, l, Node(StoredName(name), None)),
          w.m.(files := w.m.files[l := []], free := if full then w.m.free - 1 else w.m.free)), Placed(l))
  {
    hide FindEmpty, NameCheck, StoredName;
  }

  lemma CreatedIsStep(v: View, open: seq<Option<OpenFile>>, free: nat, per: nat, name: Str, now: Stamp, later: Stamp,
                      l: Loc, v': View, free': nat)
    requires l.dir in v.dirs && l == SlotFor(v, l.dir) && per > 0 && CreateCheck(v, l.dir, name).Pass?
    requires Added(v, l, NewFcb(StoredName(name), File, 0, now), later, v')
    requires SlotCounts(v') == RoomCounts(v, l.dir, per)
    requires (SlotIsFree(v, l.dir) || free > 0) && free' + (if SlotIsFree(v, l.dir) then 0 else 1) == free
    ensures StepCreate(per, WorldOf(v, open, free), l.dir, name) == (WorldOf(v', open, free'), Placed(l))
  {
    hide CreateCheck, NameCheck, RowsOf, RowOf, Cursors, RowsAfter, StepCreate, FindEmpty, FindFree, StoredName, Files;
    var f := NewFcb(StoredName(name), File, 0, now);
    RowsKeys(v);
    assert Files(v') == Files(v)[l := []];
    hide Added, PlaceFor, SlotFor, SlotIsFree, RoomCounts, SlotCounts, EntryNode;
    RowsAdded(v, l, f, later, v', per);
    CheckIs(v, l.dir, name);
    PlaceIs(v, l.dir);
    KindOfNode(f);
    assert EntryNode(f) == Node(StoredName(name), None);
    StepCreateIs(per, WorldOf(v, open, free), l.dir, name);
  }

  lemma RowsKeys(v: View)
    ensures RowsOf(v).Keys == v.dirs.Keys && forall d :: d in v.dirs ==> RowsOf(v)[d] == RowOf(v, d)
  {
    hide RowOf;
  }

  /** What making a directory is to the model. */
  lemma StepMakeDirIs(per: nat, w: World, d: nat, name: Str, id: nat)
    requires d in w.dirs && NameCheck(w.dirs[d], name).Pass?
    ensures var l, full := PlaceFor(w.dirs, d), FindEmpty(w.dirs[d], 0).None?;
      StepMakeDir(per, w, d, name, id) ==
      if w.m.free == 0 then (w, Refusal(NoSpace))
      else if full && w.m.free == 1 then (w.(m := w.m.(free := 0)), Refusal(NoSpace))
      else
        (World(RowsAfter(w.dirs, per, l, Node(StoredName(name), Some(id))),
          w.m.(free := w.m.free - if full then 2 else 1)), Placed(l))
  {
    hide FindEmpty, NameCheck, StoredName;
  }

  lemma MadeIsStep(v: View, open: seq<Option<OpenFile>>, free: nat, per: nat, name: Str, c: u16, now: Stamp,
                   later: Stamp, l: Loc, v': View, free': nat)
    requires l.dir in v.dirs && l == SlotFor(v, l.dir) && per > 0 && CreateCheck(v, l.dir, name).Pass? && c !in v.dirs
    requires Added(v, l, NewFcb(StoredName(name), Directory, c, now), later, v')
    requires SlotCounts(v') == RoomCounts(v, l.dir, per)[c as nat := per]
    requires free' + (if SlotIsFree(v, l.dir) then 1 else 2) == free
    ensures StepMakeDir(per, WorldOf(v, open, free), l.dir, name, c) == (WorldOf(v', open, free'), Placed(l))
  {
    hide CreateCheck, NameCheck, RowsOf, RowOf, Cursors, RowsAfter, StepMakeDir, FindEmpty, FindFree, StoredName, Files,
      PlaceFor, SlotFor, SlotIsFree, RoomCounts, SlotCounts, EntryNode, Added;
    var f := NewFcb(StoredName(name), Directory, c, now);
    RowsKeys(v);
    AddedFiles(v, l, f, later, v');
    RowsAdded(v, l, f, later, v', per);
    CheckIs(v, l.dir, name);
    PlaceIs(v, l.dir);
    KindOfNode(f);
    assert EntryNode(f) == Node(StoredName(name), Some(c));
    StepMakeDirIs(per, WorldOf(v, open, free), l.dir, name, c);
  }

  lemma AddedFiles(v: View, l: Loc, f: Fcb, later: Stamp, v': View)
    requires Added(v, l, f, later, v')
    ensures Files(v') == if f.IsFile() then Files(v)[l := []] else Files(v)
  {
    hide Files;
  }

  lemma RemovedIsStep(v: View, open: seq<Option<OpenFile>>, free: nat, cs: nat, l: Loc, f: Fcb, later: Stamp, v': View,
                      free': nat)
    requires cs > 0 && Removed(v, l, f, later, v') && f.IsFile() && SlotCounts(v') == SlotCounts(v)
    requires l in Files(v) && |Files(v)[l]| == f.size && !IsOpen(open, l) && free' == free + DivCeil(f.size, cs)
    ensures StepRemove(cs, WorldOf(v, open, free), l) == (WorldOf(v', open, free'), Plain(Done))
  {
    hide RowsOf, Cursors, SlotCounts, Files, DivCeil, Removed, Busy;
    BusyIs(open, l);
    RemovedFiles(v, l, f, later, v');
    assert SlotCounts(v) - {} == SlotCounts(v);
    RowsRemoved(v, l, f, later, v');
    assert PutNode(RowsOf(v), l, None) - {} == PutNode(RowsOf(v), l, None);
  }

  lemma RemovedFiles(v: View, l: Loc, f: Fcb, later: Stamp, v': View)
    requires Removed(v, l, f, later, v')
    ensures Files(v') == Files(v) - {l}
  {
    hide Files;
  }

  lemma DirRemovedIsStep(v: View, open: seq<Option<OpenFile>>, free: nat, per: nat, l: Loc, f: Fcb, later: Stamp,
                         v': View, free': nat)
    requires per > 0 && Removed(v, l, f, later, v') && f.IsDir() && f.start in v.dirs && f.start != l.dir
    requires SlotCounts(v') == SlotCounts(v) - {f.start as nat} && Count(v.dirs[f.start]) == 0 && l !in Files(v)
    requires free' == free + |v.dirs[f.start]| / per
    ensures StepRemoveDir(per, WorldOf(v, open, free), l) == (WorldOf(v', open, free'), Plain(Done))
  {
    hide RowsOf, RowOf, Cursors, SlotCounts, Files, Removed, NodeAt, Count, EntryNode, Empty;
    RemovedEntry(v, l, f, later, v');
    RemovedFiles(v, l, f, later, v');
    assert Files(v) - {l} == Files(v);
    RowsRemoved(v, l, f, later, v');
    RowIs(v, f.start, []);
    RowsKeys(v);
    NodeIs(v, l);
    KindOfNode(f);
    NodesInRows(v, f.start, 0);
  }

  /** A location holds a node of the model exactly if it holds an entry. */
  lemma NodeIs(v: View, l: Loc)
    ensures l.dir in v.dirs && l.idx < |v.dirs[l.dir]| ==> l.dir in RowsOf(v) && l.idx < |RowsOf(v)[l.dir]|
    ensures l.dir in RowsOf(v) && l.idx < |RowsOf(v)[l.dir]| ==> HasSlot(v, l)
    ensures IsEntry(v, l) <==> l.dir in RowsOf(v) && l.idx < |RowsOf(v)[l.dir]| && RowsOf(v)[l.dir][l.idx].Some?
    ensures IsEntry(v, l) ==> RowsOf(v)[l.dir][l.idx] == Some(EntryNode(v.dirs[l.dir][l.idx].fcb))
  {
    hide EntryNode;
  }

  // --- calls on the disk --------------------------------------------------------------------------------

  lemma SlotsPositive(fs: MyFileSystem)
    requires fs.Intact()
    ensures fs.Sized() && fs.cs >= FCB_SIZE && PerCluster(fs.cs) > 0 && fs.max < |fs.fat|
  {
    DivMono(FCB_SIZE, fs.cs, FCB_SIZE);
  }

  method PerformCreate(fs: MyFileSystem, d: nat, name: Str, now: Stamp, later: Stamp) returns (a: Answer)
    requires fs.Intact() && d in fs.view.dirs
    modifies fs, fs.device.inner
    ensures d in old(RowsOf(fs.view)) && (fs.Steady() || (fs.Faulted() && a == Refusal(DeviceFault)))
    ensures fs.Steady() ==>
      && fs.Intact() && fs.Sized()
      && (Seen(fs), a) == StepCreate(PerCluster(fs.cs), old(Seen(fs)), d, name)
  {
    hide MyFileSystem.Intact, MyFileSystem.Sized, RowsOf, Added, CreateCheck, SlotFor, SlotIsFree, StepCreate, Lost,
      SlotCounts, RoomCounts, PerCluster, NameCheck, PlaceFor;
    SlotsPositive(fs);
    ghost var v, open, free, per := fs.view, fs.openFiles, fs.FreeCount(), PerCluster(fs.cs);
    RowsKeys(v);
    CheckIs(v, d, name);
    PlaceIs(v, d);
    SlotForIn(v, d);
    RefusedCreate(per, WorldOf(v, open, free), d, name);
    var r := fs.CreateFile(d, name, now, later);
    if fs.Steady() { SlotsPositive(fs); }
    if r.Failure? {
      return Refusal(r.error);
    }
    CreatedIsStep(v, open, free, per, name, now, later, r.value, fs.view, fs.FreeCount());
    return Placed(r.value);
  }

  lemma RefusedCreate(per: nat, w: World, d: nat, name: Str)
    requires d in w.dirs
    ensures NameCheck(w.dirs[d], name).Fail? ==>
      StepCreate(per, w, d, name) == (w, Refusal(NameCheck(w.dirs[d], name).error))
    ensures NameCheck(w.dirs[d], name).Pass? && FindEmpty(w.dirs[d], 0).None? && w.m.free == 0 ==>
      StepCreate(per, w, d, name) == (w, Refusal(NoSpace))
    ensures forall id :: NameCheck(w.dirs[d], name).Fail? ==>
      StepMakeDir(per, w, d, name, id) == (w, Refusal(NameCheck(w.dirs[d], name).error))
  {
    hide NameCheck, FindEmpty;
  }

  /** The id of the directory that was made, if one was; otherwise 0. */
  method PerformMakeDir(fs: MyFileSystem, d: nat, name: Str, now: Stamp, later: Stamp) returns (a: Answer, id: nat)
    requires fs.Intact() && d in fs.view.dirs
    modifies fs, fs.device.inner
    ensures d in old(RowsOf(fs.view)) && id !in old(fs.view.dirs)
    ensures fs.Steady() || (fs.Faulted() && a == Refusal(DeviceFault))
    ensures fs.Steady() ==>
      && fs.Intact() && fs.Sized()
      && (Seen(fs), a) == StepMakeDir(PerCluster(fs.cs), old(Seen(fs)), d, name, id)
      && fs.view.dirs.Keys == old(fs.view.dirs.Keys) + if a.Placed? then {id} else {}
  {
    hide MyFileSystem.Intact, MyFileSystem.Sized, RowsOf, Added, CreateCheck, SlotFor, SlotIsFree, StepMakeDir, Lost,
      SlotCounts, RoomCounts, PerCluster, NameCheck, PlaceFor, SameEntries, FirstFit, Leaked, MadeDir,
      MyFileSystem.Sound, MyFileSystem.DirsOnly;
    SlotsPositive(fs);
    ghost var v, open, free, per, c := fs.view, fs.openFiles, fs.FreeCount(), PerCluster(fs.cs),
      FirstFit(fs.fat, fs.max);
    TreeOf(fs);
    SlotForIn(v, d);
    MakeDirRefused(v, open, free, per, d, name);
    var r := fs.Mkdir(d, name, now, later);
    if fs.Steady() { SlotsPositive(fs); }
    if r.Failure? {
      if fs.Steady() && fs.view != v { LeakedRows(v, c, fs.cs, fs.view); }
      return Refusal(r.error), 0;
    }
    TreeOf(fs);
    MadeFacts(fs.cs, v, open, free, name, c, now, later, r.value, fs.view, fs.FreeCount());
    id := EntryStart(fs, r.value, NewFcb(StoredName(name), NodeKind.Directory, c, now));
    return Placed(r.value), id;
  }

  /** When the model refuses to make a directory, and what that leaves. */
  lemma MakeDirRefused(v: View, open: seq<Option<OpenFile>>, free: nat, per: nat, d: nat, name: Str)
    requires d in v.dirs
    ensures d in RowsOf(v)
    ensures var w := WorldOf(v, open, free);
      && (CreateCheck(v, d, name).Fail? ==>
            StepMakeDir(per, w, d, name, 0) == (w, Refusal(CreateCheck(v, d, name).error)))
      && (CreateCheck(v, d, name).Pass? && free == 0 ==> StepMakeDir(per, w, d, name, 0) == (w, Refusal(NoSpace)))
      && (CreateCheck(v, d, name).Pass? && free == 1 && !SlotIsFree(v, d) ==>
            StepMakeDir(per, w, d, name, 0) == (WorldOf(v, open, 0), Refusal(NoSpace)))
  {
    hide CreateCheck, NameCheck, StepMakeDir, SlotIsFree, PlaceFor, RowOf, Files, Cursors;
    RowsKeys(v);
    CheckIs(v, d, name);
    PlaceIs(v, d);
    RefusedCreate(per, WorldOf(v, open, free), d, name);
    if CreateCheck(v, d, name).Pass? { StepMakeDirIs(per, WorldOf(v, open, free), d, name, 0); }
  }

  lemma MadeFacts(cs: nat, v: View, open: seq<Option<OpenFile>>, free: nat, name: Str, c: nat, now: Stamp, later: Stamp,
                  l: Loc, v': View, free': nat)
    requires Coherent(cs, v, ROOT) && Coherent(cs, v', ROOT) && PerCluster(cs) > 0
    requires l.dir in v.dirs && l == SlotFor(v, l.dir) && CreateCheck(v, l.dir, name).Pass?
    requires MadeDir(v, l, name, c, now, later, v')
    requires SlotCounts(v') == RoomCounts(v, l.dir, PerCluster(cs))[c := PerCluster(cs)]
    requires free' + (if SlotIsFree(v, l.dir) then 1 else 2) == free
    ensures c < 0x1_0000 && EntryAt(v', l, NewFcb(StoredName(name), Directory, c, now)) && l.dir in v'.dirs
    ensures c !in v.dirs && v'.dirs.Keys == v.dirs.Keys + {c}
    ensures StepMakeDir(PerCluster(cs), WorldOf(v, open, free), l.dir, name, c) == (WorldOf(v', open, free'), Placed(l))
  {
    hide Coherent, RowsOf, Added, CreateCheck, SlotFor, SlotIsFree, StepMakeDir, SlotCounts, RoomCounts, PerCluster;
    var f := NewFcb(StoredName(name), Directory, c, now);
    AddedEntry(v, l, f, later, v');
    AddedKeys(v, l, f, later, v');
    Resolve.NewIsNoDir(cs, v, l, f, later, v');
    MadeIsStep(v, open, free, PerCluster(cs), name, c, now, later, l, v', free');
  }

  lemma TreeOf(fs: MyFileSystem)
    requires fs.Intact()
    ensures Coherent(fs.cs, fs.view, ROOT) && HandlesOk(fs.view, fs.openFiles) && 0 !in fs.view.dirs
  {
    hide MyFileSystem.Ready, Coherent, HandlesOk;
    RootIsNotStale(fs.cs, fs.view, ROOT);
  }

  lemma AddedKeys(v: View, l: Loc, f: Fcb, later: Stamp, v': View)
    requires Added(v, l, f, later, v')
    ensures v'.dirs.Keys == v.dirs.Keys + if f.IsDir() then {f.start as nat} else {}
  {
    hide Files, DirBytes, Aged, IsEntry, EntryAt;
  }

  lemma LeakedRows(v: View, c: nat, cs: nat, v': View)
    requires v' == Leaked(v, c, cs) && SameEntries(v, v')
    ensures RowsOf(v') == RowsOf(v) && Files(v') == Files(v) && v'.dirs == v.dirs
  {
    hide Files;
    assert forall d :: d in v.dirs ==> RowOf(v', d) == RowOf(v, d);
  }

  /** The object that the entry at a location names. */
  method EntryStart(fs: MyFileSystem, l: Loc, ghost f: Fcb) returns (start: nat)
    requires fs.Intact() && EntryAt(fs.view, l, f) && l.dir in fs.view.dirs
    ensures start == f.start
  {
    hide MyFileSystem.Ready, Coherent, HandlesOk;
    var fcb := fs.ReadFcbAt(l);
    return fcb.value.start;
  }

  method PerformRemove(fs: MyFileSystem, l: Loc, later: Stamp) returns (a: Answer)
    requires fs.Intact() && l.dir in fs.view.dirs
    modifies fs, fs.device.inner
    ensures fs.Steady() || (fs.Faulted() && a == Refusal(DeviceFault))
    ensures fs.Steady() ==>
      && fs.Intact() && fs.Sized() && (Seen(fs), a) == StepRemove(fs.cs, old(Seen(fs)), l)
      && fs.view.dirs.Keys == old(fs.view.dirs.Keys)
  {
    hide MyFileSystem.Intact, MyFileSystem.Sized, RowsOf, Removed, StepRemove, SlotCounts, FileEntry, Files, DivCeil,
      Busy, IsOpen, FreeAll;
    SlotsPositive(fs);
    TreeOf(fs);
    ghost var v, open, free := fs.view, fs.openFiles, fs.FreeCount();
    RemoveRefused(fs.cs, v, open, free, l);
    var r := fs.Rm(l, later);
    if fs.Steady() { SlotsPositive(fs); }
    if r.Fail? {
      return Refusal(r.error);
    }
    FileFacts(fs.cs, v, l);
    RemovedKeys(v, l, FileEntry(v, l).value, later, fs.view);
    RemovedIsStep(v, open, free, fs.cs, l, FileEntry(v, l).value, later, fs.view, fs.FreeCount());
    return Plain(Done);
  }

  lemma RemovedKeys(v: View, l: Loc, f: Fcb, later: Stamp, v': View)
    requires Removed(v, l, f, later, v')
    ensures v'.dirs.Keys == v.dirs.Keys - if f.IsDir() then {f.start as nat} else {}
  {
    hide Files, DirBytes, Aged, IsEntry, EntryAt, Lost;
  }

  /** What the model says about a location that holds no file, or an open one. */
  lemma RemoveRefused(cs: nat, v: View, open: seq<Option<OpenFile>>, free: nat, l: Loc)
    requires Coherent(cs, v, ROOT) && cs > 0 && l.dir in v.dirs
    ensures FileEntry(v, l).Success? <==> l in Files(v)
    ensures FileEntry(v, l).Failure? ==> FileEntry(v, l).error == NoFile(WorldOf(v, open, free), l)
    ensures l !in Files(v) ==>
      StepRemove(cs, WorldOf(v, open, free), l) == (WorldOf(v, open, free), Refusal(NoFile(WorldOf(v, open, free), l)))
    ensures l in Files(v) && IsOpen(open, l) ==>
      StepRemove(cs, WorldOf(v, open, free), l) == (WorldOf(v, open, free), Refusal(FileOpen(l)))
  {
    hide Files, RowsOf, Cursors, Busy, IsOpen, DivCeil, Coherent;
    FileEntryIff(cs, v, ROOT, l);
    NodeIs(v, l);
    BusyIs(open, l);
  }

  /** The directory that was removed, if one was. */
  method PerformRemoveDir(fs: MyFileSystem, l: Loc, later: Stamp) returns (a: Answer, gone: set<nat>)
    requires fs.Intact() && l.dir in fs.view.dirs
    modifies fs, fs.device.inner
    ensures PerCluster(fs.cs) > 0 && (fs.Steady() || (fs.Faulted() && a == Refusal(DeviceFault)))
    ensures fs.Steady() ==>
      && fs.Intact() && fs.Sized() && (Seen(fs), a) == StepRemoveDir(PerCluster(fs.cs), old(Seen(fs)), l)
      && fs.view.dirs.Keys == old(fs.view.dirs.Keys) - gone
  {
    hide MyFileSystem.Intact, MyFileSystem.Sized, RowsOf, Removed, StepRemoveDir, SlotCounts, DirEntry, Files,
      PerCluster,
      FreeAll, Count;
    SlotsPositive(fs);
    TreeOf(fs);
    ghost var v, open, free, per := fs.view, fs.openFiles, fs.FreeCount(), PerCluster(fs.cs);
    RemoveDirRefused(fs.cs, v, open, free, per, l);
    if DirEntry(v, l).Success? { ChainOfDir(fs, DirEntry(v, l).value.start); }
    var start := StartAt(fs, l);
    var r := fs.Rmdir(l, later);
    if fs.Steady() { SlotsPositive(fs); }
    if r.Fail? {
      return Refusal(r.error), {};
    }
    RemovedKeys(v, l, DirEntry(v, l).value, later, fs.view);
    DirRemovedIsStep(v, open, free, per, l, DirEntry(v, l).value, later, fs.view, fs.FreeCount());
    return Plain(Done), {start};
  }

  method StartAt(fs: MyFileSystem, l: Loc) returns (start: nat)
    requires fs.Intact() && l.dir in fs.view.dirs
    ensures DirEntry(fs.view, l).Success? ==> start == DirEntry(fs.view, l).value.start
  {
    hide MyFileSystem.Ready, Coherent, HandlesOk;
    var fcb := fs.ReadFcbAt(l);
    return if fcb.Success? then fcb.value.start else 0;
  }

  /** A directory has a row of slots for each of its clusters. */
  lemma ChainOfDir(fs: MyFileSystem, d: nat)
    requires fs.Intact() && d in fs.view.dirs && PerCluster(fs.cs) > 0
    ensures |ChainAt(fs.layout, d)| == |fs.view.dirs[d]| / PerCluster(fs.cs)
  {
    hide MyFileSystem.Sound, Represents, Coherent, HandlesOk, PerCluster;
    fs.DirObject(d);
    ChainAtIs(fs.layout, d);
    DivModUnique(|fs.view.dirs[d]|, PerCluster(fs.cs), |fs.layout.chains[d]|, 0);
  }

  /** What the model says about a location that holds no directory, or one with entries. */
  lemma RemoveDirRefused(cs: nat, v: View, open: seq<Option<OpenFile>>, free: nat, per: nat, l: Loc)
    requires Coherent(cs, v, ROOT) && per > 0 && l.dir in v.dirs
    ensures var w := WorldOf(v, open, free);
      && (DirEntry(v, l).Failure? ==> StepRemoveDir(per, w, l) == (w, Refusal(DirEntry(v, l).error)))
      && (DirEntry(v, l).Success? ==>
            var f := DirEntry(v, l).value;
            && EntryAt(v, l, f) && f.IsDir() && f.start in v.dirs && f.start != l.dir && l !in Files(v)
            && (DirBytes(v, f.start) > 0 <==> Count(v.dirs[f.start]) > 0)
            && (Count(v.dirs[f.start]) > 0 ==> StepRemoveDir(per, w, l) == (w, Refusal(DirectoryNotEmpty))))
  {
    hide RowsOf, RowOf, Cursors, Coherent, Count, Empty, EntryNode;
    NodeIs(v, l);
    RowsKeys(v);
    if DirEntry(v, l).Success? {
      var f := DirEntry(v, l).value;
      EntryNames(cs, v, l, f);
      EntryFacts(cs, v, ROOT, l, f);
      FileEntryIff(cs, v, ROOT, l);
      RowIs(v, f.start, []);
      KindOfNode(f);
    } else if IsEntry(v, l) {
      KindOfNode(v.dirs[l.dir][l.idx].fcb);
    }
  }

  method PerformSetTime(fs: MyFileSystem, l: Loc, now: Stamp) returns (a: Answer)
    requires fs.Intact() && l.dir in fs.view.dirs
    modifies fs, fs.device.inner
    ensures fs.Steady() || (fs.Faulted() && a == Refusal(DeviceFault))
    ensures fs.Steady() ==>
      && fs.Intact() && fs.Sized() && Seen(fs) == old(Seen(fs)) && fs.view.dirs.Keys == old(fs.view.dirs.Keys)
      && a == if HasNode(Seen(fs), l) then Plain(Done) else Refusal(NoEntry(Seen(fs), l))
  {
    hide MyFileSystem.Intact, MyFileSystem.Sized, RowsOf, Touched, Files;
    SlotsPositive(fs);
    TreeOf(fs);
    ghost var v, open, max := fs.view, fs.openFiles, fs.max;
    NodeIs(v, l);
    var r := fs.SetMtime(l, now);
    if fs.Steady() { SlotsPositive(fs); }
    if r.Fail? {
      return Refusal(r.error);
    }
    TouchedKeeps(v, open, l, now, fs.view, fs.openFiles);
    TouchedCursors(v, open, l, now, fs.view, fs.openFiles);
    CountsKeys(v, fs.view);
    KeptRows(v, fs.view);
    NodeIs(fs.view, l);
    return Plain(Done);
  }

  lemma TouchedCursors(v: View, open: seq<Option<OpenFile>>, l: Loc, now: Stamp, v': View, open': seq<Option<OpenFile>>)
    requires Touched(v, open, l, now, v', open') && HandlesOk(v, open)
    ensures Cursors(open') == Cursors(open)
  {
    hide Files, Lost;
    var f := v.dirs[l.dir][l.idx].fcb;
    CursorsRetarget(v, open, l, f, f.(mtime := now.mtime, mdate := now.mdate));
  }

  method PerformFind(fs: MyFileSystem, d: nat, name: Str) returns (a: Answer)
    requires fs.Intact() && d in fs.view.dirs
    ensures fs.Sized() && d in RowsOf(fs.view) && a == StepFind(Seen(fs), d, name)
  {
    hide MyFileSystem.Ready, Coherent, HandlesOk, Normalize, RowsOf, RowOf, FindName, FindNode;
    SlotsPositive(fs);
    RowsKeys(fs.view);
    if Normalize(name).Success? { FoundIs(fs.view, d, Normalize(name).value); }
    var r := fs.Lookup(d, name);
    return match r case Success((loc, fcb)) => Found(loc, EntryNode(fcb)) case Failure(error) => Refusal(error);
  }

  lemma FoundIs(v: View, d: nat, key: Str)
    requires d in v.dirs
    ensures FindNode(RowOf(v, d), key, 0) == FindName(v.dirs[d], key, 0)
    ensures forall i :: FindName(v.dirs[d], key, 0) == Some(i) ==> RowOf(v, d)[i] == Some(EntryNode(v.dirs[d][i].fcb))
  {
    hide ToStr;
    RowIs(v, d, key);
  }

  method PerformFile(fs: MyFileSystem, op: Op) returns (a: Answer)
    requires fs.Intact() && Worlds.Known(fs.view.dirs.Keys, OnFile(op))
    modifies fs, fs.device.inner
    ensures fs.cs > 0 && (fs.Steady() || (fs.Faulted() && a == Refusal(DeviceFault)))
    ensures fs.Steady() ==>
      && fs.Intact() && fs.Sized() && (Seen(fs), a) == StepFile(fs.cs, old(Seen(fs)), op)
      && fs.view.dirs.Keys == old(fs.view.dirs.Keys)
  {
    hide MyFileSystem.Intact, MyFileSystem.Sized, RowsOf, EntriesKept, Step, Files, Cursors;
    SlotsPositive(fs);
    ghost var v := fs.view;
    if op.ReadAt? || op.WriteAt? || op.Truncate? || op.Open? {
      var isFile := IsFileEntry(fs, op.loc);
      if !isFile {
        a := PerformNoFile(fs, op);
        return;
      }
    }
    var reply := Perform(fs, op);
    if fs.Steady() { SlotsPositive(fs); }
    if fs.Steady() {
      KeptRows(v, fs.view);
      KeptKeys(v, fs.view);
    }
    return Plain(reply);
  }

  method IsFileEntry(fs: MyFileSystem, l: Loc) returns (b: bool)
    requires fs.Intact() && l.dir in fs.view.dirs
    ensures b <==> l in Files(fs.view)
  {
    hide MyFileSystem.Ready, Coherent, HandlesOk, Files;
    var fcb := fs.ReadFileFcb(l);
    return fcb.Success?;
  }

  /** A file operation on a location that holds no file is refused and changes nothing. */
  method PerformNoFile(fs: MyFileSystem, op: Op) returns (a: Answer)
    requires fs.Intact() && (op.ReadAt? || op.WriteAt? || op.Truncate? || op.Open?)
    requires op.loc.dir in fs.view.dirs && op.loc !in Files(fs.view)
    modifies fs, fs.device.inner
    ensures fs.Steady() && fs.Intact() && fs.Sized() && fs.view == old(fs.view)
    ensures Seen(fs) == old(Seen(fs)) && a == Refusal(NoFile(Seen(fs), op.loc))
  {
    hide MyFileSystem.Intact, MyFileSystem.Sized, RowsOf, FileEntry, Files, Missing, Cursors;
    SlotsPositive(fs);
    TreeOf(fs);
    RemoveRefused(fs.cs, fs.view, fs.openFiles, fs.FreeCount(), op.loc);
    match op {
      case ReadAt(l, off, len) =>
        var r := fs.ReadAt(l, off, len);
        a := Refusal(r.error);
      case WriteAt(l, off, data, now) =>
        var r := fs.WriteAt(l, off, data, now);
        a := Refusal(r.error);
      case Truncate(l, size, now) =>
        var r := fs.Truncate(l, size, now);
        a := Refusal(r.error);
      case Open(l) =>
        var r := fs.Open(l);
        a := Refusal(r.error);
    }
    SlotsPositive(fs);
  }

  lemma KeptKeys(v: View, v': View)
    requires EntriesKept(v, v')
    ensures v'.dirs.Keys == v.dirs.Keys
  {
    CountsKeys(v, v');
  }

  /** One call; `known` are the directories there are. A new directory gets an id that none had. */
  method PerformCall(fs: MyFileSystem, c: Call, known: set<nat>) returns (a: Answer, id: nat, known': set<nat>)
    requires fs.Intact() && known == fs.view.dirs.Keys
    modifies fs, fs.device.inner
    ensures fs.cs >= FCB_SIZE && id !in known && (fs.Steady() || (fs.Faulted() && a == Refusal(DeviceFault)))
    ensures fs.Steady() ==>
      && fs.Intact() && fs.Sized() && known' == fs.view.dirs.Keys
      && (Seen(fs), a) == StepCall(fs.cs, old(Seen(fs)), c, id)
  {
    hide MyFileSystem.Intact, MyFileSystem.Sized, RowsOf, StepCreate, StepMakeDir, StepRemove, StepRemoveDir, StepFind,
      StepFile, PerCluster, Cursors, Files;
    SlotsPositive(fs);
    TreeOf(fs);
    RowsKeys(fs.view);
    id, known' := 0, known;
    if !Worlds.Known(known, c) {
      return Skipped, id, known;
    }
    match c {
      case SetTime(l, now) =>
        a := PerformSetTime(fs, l, now);
      case Find(d, name) =>
        a := PerformFind(fs, d, name);
      case OnFile(op) =>
        a := PerformFile(fs, op);
      case _ =>
        a, id, known' := PerformEntry(fs, c, known);
    }
  }

  /** A call that creates or removes an entry. */
  method PerformEntry(fs: MyFileSystem, c: Call, known: set<nat>) returns (a: Answer, id: nat, known': set<nat>)
    requires fs.Intact() && known == fs.view.dirs.Keys && Worlds.Known(known, c)
    requires c.Create? || c.MakeDir? || c.Remove? || c.RemoveDir?
    modifies fs, fs.device.inner
    ensures fs.cs >= FCB_SIZE && id !in known && (fs.Steady() || (fs.Faulted() && a == Refusal(DeviceFault)))
    ensures fs.Steady() ==>
      && fs.Intact() && fs.Sized() && known' == fs.view.dirs.Keys
      && (Seen(fs), a) == StepCall(fs.cs, old(Seen(fs)), c, id)
  {
    hide MyFileSystem.Intact, MyFileSystem.Sized, RowsOf, StepCreate, StepMakeDir, StepRemove, StepRemoveDir,
      PerCluster,
      Cursors, Files;
    SlotsPositive(fs);
    TreeOf(fs);
    RowsKeys(fs.view);
    id, known' := 0, known;
    match c {
      case Create(d, name, now, later) =>
        a := PerformCreate(fs, d, name, now, later);
        if fs.Steady() {
          SlotsPositive(fs);
          CreateKeys(PerCluster(fs.cs), old(Seen(fs)), d, name);
          RowsKeys(fs.view);
        }
      case MakeDir(d, name, now, later) =>
        a, id := PerformMakeDir(fs, d, name, now, later);
        known' := if a.Placed? then known + {id} else known;
      case Remove(l, later) =>
        a := PerformRemove(fs, l, later);
      case RemoveDir(l, later) =>
        var gone;
        a, gone := PerformRemoveDir(fs, l, later);
        known' := known - gone;
    }
  }

  lemma CreateKeys(per: nat, w: World, d: nat, name: Str)
    requires d in w.dirs
    ensures StepCreate(per, w, d, name).0.dirs.Keys == w.dirs.Keys
  {
    hide NameCheck, FindEmpty, StoredName;
  }

  lemma DistinctIs(v: View, d: nat)
    requires d in v.dirs
    ensures HasNames(v, d) <==> Distinct(RowOf(v, d))
  {
    hide ToStr;
    var row, slots := RowOf(v, d), v.dirs[d];
    assert forall i :: 0 <= i < |slots| ==> (row[i].Some? <==> slots[i].Occupied?);
    assert forall i :: 0 <= i < |slots| && row[i].Some? ==> row[i].value.name == slots[i].fcb.name;
    if HasNames(v, d) {
      forall i, j | 0 <= i < j < |row| && row[i].Some? && row[j].Some?
        ensures ToStr(row[i].value.name) != ToStr(row[j].value.name)
      {
        assert slots[i].Occupied? && slots[j].Occupied?;
      }
    }
    if Distinct(row) {
      forall i, j | 0 <= i < j < |slots| && slots[i].Occupied? && slots[j].Occupied?
        ensures ToStr(slots[i].fcb.name) != ToStr(slots[j].fcb.name)
      {
        assert row[i].Some? && row[j].Some?;
      }
    }
  }

  /** The names of a volume are those of its model. */
  lemma NamesAre(v: View, open: seq<Option<OpenFile>>, free: nat)
    ensures NamesOk(v) <==> WellNamed(WorldOf(v, open, free))
  {
    hide ToStr, Printable;
    RowsKeys(v);
    forall d | d in v.dirs ensures HasNames(v, d) <==> Distinct(RowOf(v, d)) {
      DistinctIs(v, d);
    }
    if WellNamed(WorldOf(v, open, free)) {
      forall l, f | EntryAt(v, l, f) ensures Printable(f.name) {
        assert RowOf(v, l.dir)[l.idx] == Some(EntryNode(f)) && Printed(RowsOf(v)[l.dir]);
      }
    }
    if NamesOk(v) {
      forall d | d in v.dirs ensures Printed(RowOf(v, d)) {
        forall i | 0 <= i < |v.dirs[d]| && RowOf(v, d)[i].Some? ensures Printable(RowOf(v, d)[i].value.name) {
          assert EntryAt(v, Loc(d, i), v.dirs[d][i].fcb);
        }
      }
    }
  }

  /**
   Any sequence of calls answers as the model does and ends in its state, up to the first device fault: the call
   that meets it reports it, and the session stops. If no call creates a name that ends in a space, the names of
   every directory stay distinct.
   */
  method RunSession(fs: MyFileSystem, calls: seq<Call>, known: set<nat>)
      returns (answers: seq<Answer>, ids: seq<nat>, known': set<nat>)
    requires fs.Intact() && known == fs.view.dirs.Keys
    modifies fs, fs.device.inner
    ensures fs.cs >= FCB_SIZE && |ids| == |answers| <= |calls| && (fs.Steady() || fs.Faulted())
    ensures fs.Steady() ==>
      && fs.Intact() && fs.Sized() && known' == fs.view.dirs.Keys && |ids| == |calls|
      && (Seen(fs), answers) == StepCalls(fs.cs, old(Seen(fs)), calls, ids)
      && FreshIds(fs.cs, old(Seen(fs)), calls, ids)
      && (old(NamesOk(fs.view)) && AllTidy(calls) ==> NamesOk(fs.view))
    ensures fs.Steady() ==> Refusal(DeviceFault) !in answers
    ensures fs.Faulted() ==> StoppedByFault(fs.cs, old(Seen(fs)), calls, answers, ids)
  {
    hide MyFileSystem.Intact, MyFileSystem.Sized, StepCall, NamesOk, WellNamed, RowsOf, Tidy, StepCalls, FreshIds,
      Files, Cursors, StoppedByFault;
    SlotsPositive(fs);
    NamesAre(fs.view, fs.openFiles, fs.FreeCount());
    ghost var w := Seen(fs);
    NoCalls(fs.cs, w);
    answers, ids, known' := [], [], known;
    for i := 0 to |calls|
      invariant fs.Steady() && fs.Intact() && fs.Sized() && known' == fs.view.dirs.Keys && |ids| == |answers| == i
      invariant (Seen(fs), answers) == StepCalls(fs.cs, w, calls[..i], ids)
      invariant FreshIds(fs.cs, w, calls[..i], ids) && Refusal(DeviceFault) !in answers
    {
      RowsKeys(fs.view);
      var a, id;
      a, id, known' := PerformCall(fs, calls[i], known');
      NoFaultAnswer(fs.cs, StepCalls(fs.cs, w, calls[..i], ids).0, calls[i], id);
      FreshStep(fs.cs, w, calls, i, ids, id);
      StepLast(fs.cs, w, calls, i, ids, id);
      if a == Refusal(DeviceFault) {
        StoppedHere(fs.cs, w, calls, answers, ids, id);
        return answers + [a], ids + [id], known';
      }
      ids, answers := ids + [id], answers + [a];
      SlotsPositive(fs);
    }
    assert calls[..|calls|] == calls;
    NamesAre(fs.view, fs.openFiles, fs.FreeCount());
    if WellNamed(w) && AllTidy(calls) { CallsKeepNames(fs.cs, w, calls, ids); }
  }

  lemma NoCalls(cs: nat, w: World)
    requires cs >= FCB_SIZE
    ensures StepCalls(cs, w, [], []) == (w, []) && FreshIds(cs, w, [], [])
  {
  }

  lemma StoppedHere(cs: nat, w: World, calls: seq<Call>, answers: seq<Answer>, ids: seq<nat>, id: nat)
    requires cs >= FCB_SIZE && |ids| == |answers| < |calls|
    requires answers == StepCalls(cs, w, calls[..|answers|], ids).1
    ensures StoppedByFault(cs, w, calls, answers + [Refusal(DeviceFault)], ids + [id])
  {
    hide StepCalls;
    assert (ids + [id])[..|answers|] == ids;
  }

  /** The model itself never reports a device fault. */
  lemma NoFaultAnswer(cs: nat, w: World, c: Call, id: nat)
    requires cs >= FCB_SIZE
    ensures StepCall(cs, w, c, id).1 != Refusal(DeviceFault)
  {
    hide Normalize, FindNode, FindEmpty, StoredName, Step;
    if c.OnFile? { FaultEndsStep(cs, w.m, c.op); }
    DivMono(FCB_SIZE, cs, FCB_SIZE);
  }

  /** The answers are the model's but for the last one, which reports a device fault. */
  ghost predicate StoppedByFault(cs: nat, w: World, calls: seq<Call>, answers: seq<Answer>, ids: seq<nat>)
    requires cs >= FCB_SIZE
  {
    && 0 < |answers| == |ids| <= |calls|
    && var n := |answers| - 1;
      answers == StepCalls(cs, w, calls[..n], ids[..n]).1 + [Refusal(DeviceFault)]
  }

  /** No id is given to a directory while another one has it. */
  ghost predicate FreshIds(cs: nat, w: World, calls: seq<Call>, ids: seq<nat>)
    requires cs >= FCB_SIZE && |ids| == |calls|
  {
    forall i :: 0 <= i < |calls| ==> ids[i] !in StepCalls(cs, w, calls[..i], ids[..i]).0.dirs
  }

  lemma FreshStep(cs: nat, w: World, calls: seq<Call>, i: nat, ids: seq<nat>, id: nat)
    requires cs >= FCB_SIZE && i < |calls| && |ids| == i && FreshIds(cs, w, calls[..i], ids)
    requires id !in StepCalls(cs, w, calls[..i], ids).0.dirs
    ensures FreshIds(cs, w, calls[..i + 1], ids + [id])
  {
    hide StepCalls;
    forall k | 0 <= k < i + 1
      ensures (ids + [id])[k] !in StepCalls(cs, w, calls[..i + 1][..k], (ids + [id])[..k]).0.dirs
    {
      assert calls[..i + 1][..k] == calls[..k];
      if k < i {
        assert calls[..i][..k] == calls[..k] && (ids + [id])[..k] == ids[..k];
      } else {
        assert (ids + [id])[..k] == ids;
      }
    }
  }

  lemma StepLast(cs: nat, w: World, calls: seq<Call>, i: nat, ids: seq<nat>, id: nat)
    requires cs >= FCB_SIZE && i < |calls| && |ids| == i
    ensures var (w0, answers) := StepCalls(cs, w, calls[..i], ids);
      var (w', a) := StepCall(cs, w0, calls[i], id);
      StepCalls(cs, w, calls[..i + 1], ids + [id]) == (w', answers + [a])
  {
    hide StepCall;
    assert calls[..i + 1][..i] == calls[..i] && (ids + [id])[..i] == ids;
  }

  // --- from formatting to mounting again ------------------------------------------------------------------

  lemma FormattedIs(per: nat, cs: nat, free: nat)
    requires per == PerCluster(cs)
    ensures WorldOf(EmptyView(per), seq(MAX_OPEN_FILES, _ => None), free) == Formatted(cs, free + 1)
    ensures EmptyView(per).dirs.Keys == {ROOT}
  {
    hide PerCluster;
    var v := EmptyView(per);
    assert RowOf(v, ROOT) == NoNodes(per);
    assert RowsOf(v) == map[ROOT := NoNodes(per)];
    assert FileLocs(v) == {};
    assert Files(v) == map[];
    assert Cursors(seq(MAX_OPEN_FILES, _ => None)) == seq(MAX_OPEN_FILES, _ => None);
  }

  lemma RemountedIs(v: View, open: seq<Option<OpenFile>>, free: nat)
    ensures WorldOf(v, seq(MAX_OPEN_FILES, _ => None), free) == Remounted(WorldOf(v, open, free))
  {
    hide RowsOf, Files;
    assert Cursors(seq(MAX_OPEN_FILES, _ => None)) == seq(MAX_OPEN_FILES, _ => None);
  }

  /**
   Formats a device, performs calls, mounts it again and performs more: if no device write fails, every answer is
   the model's, which starts with an empty root and closes all files when it is mounted again.
   */
  method Lifetime(device: LogicalBlockDevice, cfg: FsConfig, before: seq<Call>, after: seq<Call>)
      returns (r: Result<MyFileSystem>, answers: seq<Answer>, ids: seq<nat>, answers': seq<Answer>, ids': seq<nat>)
    requires device.Valid()
    modifies device.inner
    ensures r == Failure(InvalidConfig) <==>
      !(Validate(cfg).Pass? && device.blockSize == cfg.blockSize && device.blockCount >= cfg.blockCount)
    ensures r.Failure? && r.error != InvalidConfig ==>
      r.error == DeviceFault && device.inner.faults < old(device.inner.faults)
    ensures r.Success? ==>
      var fs := r.value;
      && device.inner.faults == old(device.inner.faults) && fs.device == device
      && fs.Intact() && fs.Sized() && fs.boot == BootOf(cfg) && fs.cs == ClusterSize(fs.boot) >= FCB_SIZE
      && |ids| == |before| && |ids'| == |after| && DataClusterCount(fs.boot) > 0
      && FilledBy(fs.boot, cfg, DataClusterCount(fs.boot) - 1)
      && var (w, answered) := StepCalls(fs.cs, Formatted(fs.cs, DataClusterCount(fs.boot)), before, ids);
        answers == answered && (Seen(fs), answers') == StepCalls(fs.cs, Remounted(w), after, ids')
    ensures r.Success? && AllTidy(before) && AllTidy(after) ==> NamesOk(r.value.view)
  {
    hide MyFileSystem.Intact, MyFileSystem.Sized, NamesOk, Validate, BootOf, RowsOf, StepCalls, ClusterSize, Tidy,
      DataClusterCount, Formatted, Remounted, EmptyView, FilledBy;
    answers, ids, answers', ids' := [], [], [], [];
    r := FormatOnDevice(device, cfg);
    if r.Failure? {
      return;
    }
    var fs := r.value;
    SlotsPositive(fs);
    FormattedIs(PerCluster(fs.cs), fs.cs, fs.FreeCount());
    EmptyNames(PerCluster(fs.cs));
    var known;
    answers, ids, known := RunSession(fs, before, {ROOT});
    if |answers| > 0 && answers[|answers| - 1] == Refusal(DeviceFault) {
      r := Failure(DeviceFault);
      return;
    }
    r := Reopen(fs);
    if r.Failure? {
      return;
    }
    answers', ids', known := RunSession(r.value, after, known);
    if |answers'| > 0 && answers'[|answers'| - 1] == Refusal(DeviceFault) {
      r := Failure(DeviceFault);
    }
  }

  /** Mounting again, seen from the model. */
  method Reopen(fs: MyFileSystem) returns (r: Result<MyFileSystem>)
    requires fs.Intact()
    modifies fs`fatDirty, fs.device.inner
    ensures fs.Steady() || (fs.Faulted() && r == Failure(DeviceFault))
    ensures fs.Steady() ==>
      && r.Success? && fresh(r.value) && r.value.Intact() && r.value.Sized()
      && r.value.device == fs.device && r.value.boot == fs.boot
      && r.value.cs == fs.cs == ClusterSize(fs.boot) && r.value.view == fs.view
      && Seen(r.value) == Remounted(old(Seen(fs)))
  {
    hide MyFileSystem.Intact, MyFileSystem.Sized, RowsOf, Files, Cursors, Remounted, MaxCluster, ClusterSize, BootOk,
      FreeSet;
    SlotsPositive(fs);
    CsOf(fs);
    RemountedIs(fs.view, fs.openFiles, fs.FreeCount());
    r := SyncAndReopen(fs);
    if r.Success? {
      SlotsPositive(r.value);
      CsOf(r.value);
    }
  }

  lemma CsOf(fs: MyFileSystem)
    requires fs.Intact()
    ensures fs.cs == ClusterSize(fs.boot) && BootOk(fs.boot) && fs.max == MaxCluster(fs.boot)
  {
  }
}
