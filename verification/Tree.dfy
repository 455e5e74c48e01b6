/**
 The directory tree as a value: decoded directories, file contents, and the bookkeeping that shows
 that the directories form a tree and that every object has at most one entry.
 */
module Tree {
  import opened Base
  import opened Geometry
  import opened Streams
  import opened Directory
  import opened Volume
  import opened Names
  import opened Text

  /**
   Directories (slots by start cluster) and the other objects (bytes by start cluster); `refs` gives the
   entry of every referenced object, `depth` the distance of every directory from the root.
   */
  datatype View = View(dirs: map<nat, seq<DirSlot>>, blobs: map<nat, seq<byte>>, refs: map<nat, Loc>, depth: map<nat,
    nat>)

  predicate HasSlot(v: View, l: Loc) { l.dir in v.dirs && l.idx < |v.dirs[l.dir]| }

  predicate EntryAt(v: View, l: Loc, f: Fcb) { HasSlot(v, l) && v.dirs[l.dir][l.idx] == Occupied(f) }

  function PutSlot(v: View, l: Loc, x: DirSlot): View
    requires HasSlot(v, l)
  {
    v.(dirs := v.dirs[l.dir := v.dirs[l.dir][l.idx := x]])
  }

  /** The objects of the volume are the directories and blobs of the view. */
  ghost predicate Represents(cs: nat, store: Store, v: View)
  {
    && cs >= FCB_SIZE
    && (forall s :: s in store <==> s in v.dirs || s in v.blobs)
    && (forall b :: b in v.blobs ==> b !in v.dirs)
    && (forall d :: d in v.dirs ==> v.dirs[d] == Slots(cs, store[d]))
    && (forall b :: b in v.blobs ==> v.blobs[b] == store[b])
  }

  // --- coherence ----------------------------------------------------------------------------------

  /** All bytes behind the file's size are zero. */
  predicate ZeroFrom(s: seq<byte>, size: nat) { forall k :: size <= k < |s| ==> s[k] == 0 }

  /** An empty file has no cluster; any other has exactly as many as its size needs, zero behind the end. */
  predicate FileOk(cs: nat, blobs: map<nat, seq<byte>>, f: Fcb)
    requires cs > 0
  {
    && (f.start == 0 <==> f.size == 0)
    && (f.start != 0 ==>
          && f.start in blobs && |blobs[f.start]| == Whole(f.size, cs)
          && ZeroFrom(blobs[f.start], f.size))
  }

  /** `stale` is the one directory whose recorded size may be out of date; the root has no record. */
  predicate DirOk(v: View, l: Loc, f: Fcb, stale: nat)
  {
    && f.start in v.dirs && f.start != 0 && f.start != ROOT
    && f.start in v.depth && l.dir in v.depth && v.depth[f.start] == v.depth[l.dir] + 1
    && (f.start != stale ==> f.size == FCB_SIZE * Count(v.dirs[f.start]))
  }

  predicate EntryOk(cs: nat, v: View, l: Loc, f: Fcb, stale: nat)
    requires cs > 0
  {
    && (f.start != 0 ==> f.start in v.refs && v.refs[f.start] == l)
    && (if f.IsDir() then DirOk(v, l, f, stale) else f.IsFile() && FileOk(cs, v.blobs, f))
  }

  predicate RefOk(v: View, s: nat)
    requires s in v.refs
  {
    var l := v.refs[s];
    HasSlot(v, l) && v.dirs[l.dir][l.idx].Occupied? && v.dirs[l.dir][l.idx].fcb.start == s
  }

  ghost predicate Rooted(v: View)
  {
    && (forall b :: b in v.blobs ==> b !in v.dirs)
    && 0 !in v.dirs && 0 !in v.refs && ROOT in v.dirs && ROOT !in v.refs
    && (forall d :: d in v.depth <==> d in v.dirs) && v.depth[ROOT] == 0
    && (forall d :: d in v.dirs && d != ROOT ==> d in v.refs)
  }

  ghost predicate EntriesOk(cs: nat, v: View, stale: nat)
    requires cs > 0
  {
    forall l, f :: EntryAt(v, l, f) ==> EntryOk(cs, v, l, f, stale)
  }

  ghost predicate RefsOk(v: View)
  {
    forall s :: s in v.refs ==> RefOk(v, s)
  }

  /**
   Every entry is in order, every referenced object has exactly one entry, every directory but the root
   is referenced, and one level deeper than the directory its entry lies in.
   */
  ghost predicate Coherent(cs: nat, v: View, stale: nat)
  {
    cs >= FCB_SIZE && Rooted(v) && EntriesOk(cs, v, stale) && RefsOk(v)
  }

  lemma EntryFacts(cs: nat, v: View, stale: nat, l: Loc, f: Fcb)
    requires Coherent(cs, v, stale) && EntryAt(v, l, f)
    ensures EntryOk(cs, v, l, f, stale)
  {
  }

  /** No two entries share an object. */
  lemma EntriesDistinct(cs: nat, v: View, stale: nat, l: Loc, f: Fcb, l': Loc, f': Fcb)
    requires Coherent(cs, v, stale) && EntryAt(v, l, f) && EntryAt(v, l', f') && f.start == f'.start != 0
    ensures l == l' && f == f'
  {
  }

  /** Rewriting the bytes of one slot on the disk rewrites that slot of the view. */
  lemma SlotPut(cs: nat, store: Store, v: View, l: Loc, bytes: seq<byte>)
    requires Represents(cs, store, v) && HasSlot(v, l) && |bytes| == FCB_SIZE
    ensures l.dir in store && SlotOffset(cs, l.idx) + FCB_SIZE <= |store[l.dir]|
    ensures Represents(cs, store[l.dir := Splice(store[l.dir], SlotOffset(cs, l.idx), bytes)],
      PutSlot(v, l, DecodeSlot(bytes)))
  {
    SlotWrite(cs, store[l.dir], l.idx, bytes);
    hide Slots, Splice, SlotOffset, DecodeSlot;
  }

  /** A directory object that grows by a zeroed cluster gets unused slots. */
  lemma SlotsGrow(cs: nat, store: Store, v: View, d: nat)
    requires Represents(cs, store, v) && d in v.dirs && |store[d]| % cs == 0
    ensures d in store
    ensures Represents(cs, store[d := store[d] + ZeroPad(1, cs)], ExtendDir(v, d, PerCluster(cs)))
  {
    ZeroPadStep(0, cs);
    SlotExtend(cs, store[d]);
    hide Slots, ZeroPad, NoSlots;
  }

  /** Objects that are no directories may change, appear and disappear. */
  lemma BlobPut(cs: nat, store: Store, v: View, b: nat, bytes: seq<byte>)
    requires Represents(cs, store, v) && b !in v.dirs
    ensures Represents(cs, store[b := bytes], v.(blobs := v.blobs[b := bytes]))
    ensures Represents(cs, store - {b}, v.(blobs := v.blobs - {b}))
  {
  }

  /** What the bytes at a slot's place say, and what lies behind the last slot. */
  lemma SlotGet(cs: nat, store: Store, v: View, l: Loc)
    requires Represents(cs, store, v) && l.dir in v.dirs && |store[l.dir]| % cs == 0
    ensures l.dir in store
    ensures HasSlot(v, l) ==>
      && SlotOffset(cs, l.idx) + FCB_SIZE <= |store[l.dir]|
      && v.dirs[l.dir][l.idx] == DecodeSlot(store[l.dir][SlotOffset(cs, l.idx)..SlotOffset(cs, l.idx) + FCB_SIZE])
    ensures !HasSlot(v, l) ==> SlotOffset(cs, l.idx) + FCB_SIZE > |store[l.dir]|
  {
    if HasSlot(v, l) {
      SlotInside(cs, |store[l.dir]|, l.idx);
    } else {
      SlotOutside(cs, |store[l.dir]|, l.idx);
    }
  }

  /** Recording the current size of a directory in its entry. */
  function Refreshed(v: View, dir: nat, now: Stamp): View
  {
    if dir == ROOT || dir !in v.dirs || dir !in v.refs || !HasSlot(v, v.refs[dir]) then v
    else
      var l, size := v.refs[dir], FCB_SIZE * Count(v.dirs[dir]);
      match v.dirs[l.dir][l.idx]
      case Occupied(f) => if size < U32_LIMIT then PutSlot(v, l, Occupied(f.(size := size).Touch(now))) else v
      case _ => v
  }

  lemma RefreshedIs(v: View, dir: nat, now: Stamp)
    ensures dir == ROOT ==> Refreshed(v, dir, now) == v
    ensures dir != ROOT && dir in v.dirs && dir in v.refs && IsEntry(v, v.refs[dir]) ==>
      var l, size := v.refs[dir], FCB_SIZE * Count(v.dirs[dir]);
      size < U32_LIMIT ==>
        Refreshed(v, dir, now) == PutSlot(v, l, Occupied(v.dirs[l.dir][l.idx].fcb.(size := size).Touch(now)))
  {
    hide Count;
  }

  // --- steps ----------------------------------------------------------------------------------------

  /** Replaces a file entry and its contents; an old object that is no longer named disappears. */
  function SetFile(v: View, l: Loc, f: Fcb, f': Fcb, bytes: seq<byte>): View
    requires HasSlot(v, l)
  {
    var dirs := v.dirs[l.dir := v.dirs[l.dir][l.idx := Occupied(f')]];
    if f'.start == 0 then View(dirs, v.blobs - {f.start}, v.refs - {f.start}, v.depth)
    else View(dirs, v.blobs[f'.start := bytes], v.refs[f'.start := l], v.depth)
  }

  /** The new bytes of a file's object, before its entry says so. */
  function PutBytes(v: View, f: Fcb, f': Fcb, bytes: seq<byte>): View
  {
    v.(blobs := if f'.start == 0 then v.blobs - {f.start} else v.blobs[f'.start := bytes])
  }

  /** Which object a file may name next: the same, none, or, if it had none, one that nobody names. */
  predicate MayName(v: View, f: Fcb, f': Fcb)
  {
    f.IsFile() && f'.IsFile() &&
    (f'.start == f.start || f'.start == 0 || (f.start == 0 && f'.start !in v.dirs && f'.start !in v.refs))
  }

  lemma EntryLast(cs: nat, store: Store, v: View, l: Loc, f: Fcb, f': Fcb, bytes: seq<byte>)
    requires HasSlot(v, l)
    requires Represents(cs, store, PutSlot(PutBytes(v, f, f', bytes), l, Occupied(f')))
    ensures Represents(cs, store, SetFile(v, l, f, f', bytes))
  {
    hide Slots;
  }

  /** The store after a file's object was replaced, by one that is no directory. */
  lemma NewObject(cs: nat, store: Store, v: View, f: Fcb, f': Fcb, bytes: seq<byte>)
    requires Represents(cs, store, v) && 0 !in store && (f.start != 0 ==> f.start in v.blobs)
    requires f'.start == f.start || f'.start == 0 || f'.start !in store
    ensures f'.start != 0 ==> Represents(cs, store[f'.start := bytes], PutBytes(v, f, f', bytes))
    ensures f'.start == 0 ==> Represents(cs, store - {f.start}, PutBytes(v, f, f', bytes))
    ensures f'.start == 0 == f.start ==> Represents(cs, store, PutBytes(v, f, f', bytes))
  {
    hide Slots;
    if f'.start == 0 == f.start { assert store - {0} == store; }
  }

  lemma StoreOf(cs: nat, store: Store, v: View, f: Fcb)
    requires Represents(cs, store, v) && f.start != 0 && f.start in v.blobs
    ensures f.start in store && store[f.start] == ObjectOf(v, f)
  {
    hide Slots;
  }

  /** A cluster without an object has no entry. */
  lemma UnusedName(cs: nat, store: Store, v: View, stale: nat, c: nat)
    requires Represents(cs, store, v) && Coherent(cs, v, stale) && c !in store
    ensures c !in v.dirs && c !in v.refs
  {
    hide Slots;
    NewBlobOk(cs, v, stale, c, []);
  }

  /** A file entry may change its size, times and contents as long as they fit together. */
  lemma SetFileOk(cs: nat, v: View, stale: nat, l: Loc, f: Fcb, f': Fcb, bytes: seq<byte>)
    requires Coherent(cs, v, stale) && EntryAt(v, l, f) && MayName(v, f, f')
    requires FileOk(cs, map[f'.start := bytes], f')
    ensures Coherent(cs, SetFile(v, l, f, f', bytes), stale)
    ensures forall l1, f1 :: EntryAt(SetFile(v, l, f, f', bytes), l1, f1) <==> if l1 == l then f1 == f'
      else EntryAt(v, l1, f1)
  {
    hide Rooted, RefsOk, EntryOk;
    var v' := SetFile(v, l, f, f', bytes);
    SetFileRefs(cs, v, stale, l, f, f', bytes);
    forall l1, f1 | EntryAt(v', l1, f1)
      ensures EntryOk(cs, v', l1, f1, stale)
    {
      hide Coherent;
      if l1 != l { SetFileOther(cs, v, stale, l, f, f', bytes, l1, f1); }
    }
  }

  lemma SetFileRefs(cs: nat, v: View, stale: nat, l: Loc, f: Fcb, f': Fcb, bytes: seq<byte>)
    requires Coherent(cs, v, stale) && EntryAt(v, l, f) && MayName(v, f, f')
    requires FileOk(cs, map[f'.start := bytes], f')
    ensures var v' := SetFile(v, l, f, f', bytes);
      Rooted(v') && RefsOk(v') && EntryOk(cs, v', l, f', stale)
  {
    hide Rooted, RefsOk, EntriesOk, EntryOk, MayName, FileOk;
    EntryFacts(cs, v, stale, l, f);
    SetFileNew(cs, v, stale, l, f, f', bytes);
    RootIsNotStale(cs, v, stale);
    SetFileRefsKept(v, l, f, f', bytes);
    SetFileRooted(v, l, f, f', bytes);
  }

  lemma SetFileNew(cs: nat, v: View, stale: nat, l: Loc, f: Fcb, f': Fcb, bytes: seq<byte>)
    requires cs > 0 && EntryAt(v, l, f) && EntryOk(cs, v, l, f, stale) && MayName(v, f, f')
      && FileOk(cs, map[f'.start := bytes], f')
    ensures EntryOk(cs, SetFile(v, l, f, f', bytes), l, f', stale)
    ensures f.start != 0 ==> f.start in v.blobs
    ensures f'.start == f.start || f'.start == 0 || f.start == 0
  {
    hide ZeroFrom, Whole;
  }

  lemma SetFileRooted(v: View, l: Loc, f: Fcb, f': Fcb, bytes: seq<byte>)
    requires Rooted(v) && EntryAt(v, l, f) && MayName(v, f, f') && (f.start != 0 ==> f.start in v.blobs)
    ensures Rooted(SetFile(v, l, f, f', bytes))
  {
  }

  lemma SetFileRefsKept(v: View, l: Loc, f: Fcb, f': Fcb, bytes: seq<byte>)
    requires RefsOk(v) && EntryAt(v, l, f) && 0 !in v.refs
    requires f'.start == f.start || f'.start == 0 || f.start == 0
    ensures RefsOk(SetFile(v, l, f, f', bytes))
  {
    var v' := SetFile(v, l, f, f', bytes);
    forall s | s in v'.refs ensures RefOk(v', s) {
      if s in v.refs { assert RefOk(v, s); }
    }
  }

  lemma SetFileOther(cs: nat, v: View, stale: nat, l: Loc, f: Fcb, f': Fcb, bytes: seq<byte>, l1: Loc, f1: Fcb)
    requires Coherent(cs, v, stale) && EntryAt(v, l, f) && MayName(v, f, f')
    requires EntryAt(SetFile(v, l, f, f', bytes), l1, f1) && l1 != l
    ensures EntryAt(v, l1, f1) && EntryOk(cs, SetFile(v, l, f, f', bytes), l1, f1, stale)
  {
    hide Coherent, Count, ZeroFrom, Whole;
    assert EntryAt(v, l1, f1);
    EntryFacts(cs, v, stale, l1, f1);
    if f1.start != 0 && f1.start == f.start { EntriesDistinct(cs, v, stale, l, f, l1, f1); }
    CountUpdate(v.dirs[l.dir], l.idx, Occupied(f'));
  }

  /** A directory entry may refresh its recorded size and times. */
  lemma RefreshOk(cs: nat, v: View, l: Loc, f: Fcb, f': Fcb)
    requires EntryAt(v, l, f) && f.IsDir() && f' == f.(size := f'.size, mtime := f'.mtime, mdate := f'.mdate)
    requires Coherent(cs, v, f.start) && f.start in v.dirs && f'.size == FCB_SIZE * Count(v.dirs[f.start])
    ensures Coherent(cs, PutSlot(v, l, Occupied(f')), ROOT)
  {
    var v' := PutSlot(v, l, Occupied(f'));
    assert EntryOk(cs, v, l, f, f.start);
    CountUpdate(v.dirs[l.dir], l.idx, Occupied(f'));
    forall l1, f1 | EntryAt(v', l1, f1)
      ensures EntryOk(cs, v', l1, f1, ROOT)
    {
      if l1 != l {
        assert EntryAt(v, l1, f1);
      }
    }
    forall s | s in v'.refs ensures RefOk(v', s) {
      assert RefOk(v, s);
    }
  }

  /** A new entry: a file without clusters, or a directory of unused slots made of a fresh blob. */
  function AddEntry(v: View, l: Loc, f: Fcb, slots: seq<DirSlot>): View
    requires HasSlot(v, l)
  {
    var dirs := v.dirs[l.dir := v.dirs[l.dir][l.idx := Occupied(f)]];
    if f.IsDir() then
      View(dirs[f.start := slots], v.blobs - {f.start}, v.refs[f.start := l],
           v.depth[f.start := (if l.dir in v.depth then v.depth[l.dir] else 0) + 1])
    else v.(dirs := dirs)
  }

  lemma AddEntryOk(cs: nat, v: View, l: Loc, f: Fcb, n: nat)
    requires Coherent(cs, v, ROOT) && HasSlot(v, l) && !v.dirs[l.dir][l.idx].Occupied?
    requires f.size == 0 && (f.IsDir() || (f.IsFile() && f.start == 0))
    requires f.IsDir() ==> f.start != 0 && f.start !in v.dirs && f.start !in v.refs
    ensures Coherent(cs, AddEntry(v, l, f, NoSlots(n)), l.dir)
    ensures forall l1, f1 :: EntryAt(AddEntry(v, l, f, NoSlots(n)), l1, f1) <==>
      (l1 == l && f1 == f) || EntryAt(v, l1, f1)
  {
    hide Rooted, RefsOk, EntryOk, Count;
    var v' := AddEntry(v, l, f, NoSlots(n));
    AddEntryRefs(cs, v, l, f, n);
    forall l1, f1 | EntryAt(v', l1, f1)
      ensures EntryOk(cs, v', l1, f1, l.dir)
    {
      hide Coherent;
      if l1 != l { AddEntryOther(cs, v, l, f, n, l1, f1); }
    }
    forall l1, f1 | EntryAt(v, l1, f1) ensures EntryAt(v', l1, f1) {
      AddEntryKeeps(cs, v, l, f, n, l1, f1);
    }
    hide Coherent;
    forall l1, f1 | EntryAt(v', l1, f1) && l1 != l ensures EntryAt(v, l1, f1) {
      AddEntryOther(cs, v, l, f, n, l1, f1);
    }
  }

  lemma AddEntryKeeps(cs: nat, v: View, l: Loc, f: Fcb, n: nat, l1: Loc, f1: Fcb)
    requires HasSlot(v, l) && !v.dirs[l.dir][l.idx].Occupied? && EntryAt(v, l1, f1)
    requires f.IsDir() ==> f.start !in v.dirs
    ensures EntryAt(AddEntry(v, l, f, NoSlots(n)), l1, f1)
  {
  }

  lemma AddEntryRefs(cs: nat, v: View, l: Loc, f: Fcb, n: nat)
    requires Coherent(cs, v, ROOT) && HasSlot(v, l) && !v.dirs[l.dir][l.idx].Occupied?
    requires f.size == 0 && (f.IsDir() || (f.IsFile() && f.start == 0))
    requires f.IsDir() ==> f.start != 0 && f.start !in v.dirs && f.start !in v.refs
    ensures var v' := AddEntry(v, l, f, NoSlots(n));
      Rooted(v') && RefsOk(v') && EntryOk(cs, v', l, f, l.dir)
  {
    CountNoSlots(n);
    AddEntryRefsKept(v, l, f, n);
    AddEntryRooted(v, l, f, n);
    hide EntriesOk, Count, NoSlots, RefsOk;
  }

  lemma AddEntryRooted(v: View, l: Loc, f: Fcb, n: nat)
    requires Rooted(v) && HasSlot(v, l) && (f.IsDir() ==> f.start != 0 && f.start !in v.dirs)
    ensures Rooted(AddEntry(v, l, f, NoSlots(n)))
  {
    hide NoSlots;
  }

  lemma CountNoSlots(n: nat)
    ensures Count(NoSlots(n)) == 0
  {
    CountBound(NoSlots(n));
  }

  lemma AddEntryRefsKept(v: View, l: Loc, f: Fcb, n: nat)
    requires RefsOk(v) && HasSlot(v, l) && !v.dirs[l.dir][l.idx].Occupied?
    requires f.IsDir() ==> f.start !in v.dirs && f.start !in v.refs
    ensures RefsOk(AddEntry(v, l, f, NoSlots(n)))
  {
    var v' := AddEntry(v, l, f, NoSlots(n));
    forall s | s in v'.refs ensures RefOk(v', s) {
      if s in v.refs { assert RefOk(v, s); }
    }
  }

  lemma AddEntryOther(cs: nat, v: View, l: Loc, f: Fcb, n: nat, l1: Loc, f1: Fcb)
    requires Coherent(cs, v, ROOT) && HasSlot(v, l)
    requires f.IsDir() ==> f.start != 0 && f.start !in v.dirs && f.start !in v.refs
    requires EntryAt(AddEntry(v, l, f, NoSlots(n)), l1, f1) && l1 != l
    ensures EntryAt(v, l1, f1) && EntryOk(cs, AddEntry(v, l, f, NoSlots(n)), l1, f1, l.dir)
  {
    hide Coherent, Count, ZeroFrom, Whole;
    assert EntryAt(v, l1, f1);
    EntryFacts(cs, v, ROOT, l1, f1);
  }

  /** Removes an entry together with its object. */
  function RemoveEntry(v: View, l: Loc, f: Fcb): View
    requires HasSlot(v, l)
  {
    var dirs := v.dirs[l.dir := v.dirs[l.dir][l.idx := Deleted]];
    if f.IsDir() then View(dirs - {f.start}, v.blobs, v.refs - {f.start}, v.depth - {f.start})
    else View(dirs, v.blobs - {f.start}, v.refs - {f.start}, v.depth)
  }

  lemma RemoveEntryOk(cs: nat, v: View, l: Loc, f: Fcb)
    requires Coherent(cs, v, ROOT) && EntryAt(v, l, f)
    requires f.IsDir() ==> f.start in v.dirs && Count(v.dirs[f.start]) == 0
    ensures Coherent(cs, RemoveEntry(v, l, f), l.dir)
    ensures forall l1, f1 :: EntryAt(RemoveEntry(v, l, f), l1, f1) <==> l1 != l && EntryAt(v, l1, f1)
    ensures l.dir in RemoveEntry(v, l, f).dirs
  {
    hide Rooted, RefsOk, EntryOk, Count;
    var v' := RemoveEntry(v, l, f);
    RemoveEntryRefs(cs, v, l, f);
    forall l1, f1 | l1 != l && EntryAt(v, l1, f1)
      ensures EntryAt(v', l1, f1) && EntryOk(cs, v', l1, f1, l.dir)
    {
      hide Coherent;
      RemoveEntryOther(cs, v, l, f, l1, f1);
    }
  }

  lemma RemoveEntryRefs(cs: nat, v: View, l: Loc, f: Fcb)
    requires Coherent(cs, v, ROOT) && EntryAt(v, l, f)
    requires f.IsDir() ==> f.start in v.dirs && Count(v.dirs[f.start]) == 0
    ensures var v' := RemoveEntry(v, l, f);
      Rooted(v') && RefsOk(v') && l.dir in v'.dirs
  {
    hide Rooted, RefsOk, EntriesOk, EntryOk, Count;
    EntryFacts(cs, v, ROOT, l, f);
    RootIsNotStale(cs, v, ROOT);
    if f.IsDir() {
      CountBound(v.dirs[f.start]);
      DirEntryStart(cs, v, l, f, ROOT);
    }
    hide Coherent;
    EntryNames(cs, v, l, f);
    RemoveEntryRefsKept(v, l, f);
    RemoveEntryRooted(v, l, f);
  }

  lemma RemoveEntryRooted(v: View, l: Loc, f: Fcb)
    requires Rooted(v) && EntryAt(v, l, f)
    requires f.IsDir() ==> f.start in v.dirs && f.start != ROOT && forall i :: 0 <= i < |v.dirs[f.start]| ==>
      !v.dirs[f.start][i].Occupied?
    requires !f.IsDir() ==> f.start !in v.dirs || f.start == 0
    ensures Rooted(RemoveEntry(v, l, f)) && l.dir in RemoveEntry(v, l, f).dirs
  {
  }

  lemma RemoveEntryRefsKept(v: View, l: Loc, f: Fcb)
    requires RefsOk(v) && EntryAt(v, l, f) && 0 !in v.refs
    requires f.IsDir() ==> f.start in v.dirs && forall i :: 0 <= i < |v.dirs[f.start]| ==> !v.dirs[f.start][i].Occupied?
    ensures RefsOk(RemoveEntry(v, l, f))
  {
    var v' := RemoveEntry(v, l, f);
    forall s | s in v'.refs ensures RefOk(v', s) {
      assert RefOk(v, s);
    }
  }

  lemma RemoveEntryOther(cs: nat, v: View, l: Loc, f: Fcb, l1: Loc, f1: Fcb)
    requires Coherent(cs, v, ROOT) && EntryAt(v, l, f) && EntryAt(v, l1, f1) && l1 != l
    requires f.IsDir() ==> f.start in v.dirs && Count(v.dirs[f.start]) == 0
    ensures EntryAt(RemoveEntry(v, l, f), l1, f1) && EntryOk(cs, RemoveEntry(v, l, f), l1, f1, l.dir)
  {
    hide Coherent, ZeroFrom, Whole, Count;
    EntryFacts(cs, v, ROOT, l1, f1);
    if f1.start != 0 && f1.start == f.start { EntriesDistinct(cs, v, ROOT, l, f, l1, f1); }
    FileIsNoDir(cs, v, l, f, l1, f1);
    RemoveKeeps(v, l, f, l1, f1);
  }

  lemma FileIsNoDir(cs: nat, v: View, l: Loc, f: Fcb, l1: Loc, f1: Fcb)
    requires Coherent(cs, v, ROOT) && EntryAt(v, l, f) && EntryAt(v, l1, f1)
    requires f.IsDir() ==> f.start in v.dirs
    ensures f1.IsFile() ==> !(f.IsDir() && f1.start == f.start)
    ensures 0 !in v.dirs
  {
    hide ZeroFrom, Whole, Count;
    EntryFacts(cs, v, ROOT, l1, f1);
  }

  lemma RemoveKeeps(v: View, l: Loc, f: Fcb, l1: Loc, f1: Fcb)
    requires EntryAt(v, l, f) && EntryAt(v, l1, f1) && l1 != l
    requires f.IsDir() ==> f.start in v.dirs && Count(v.dirs[f.start]) == 0
    ensures EntryAt(RemoveEntry(v, l, f), l1, f1)
    ensures f.IsDir() ==> l.dir != f.start && l1.dir != f.start
  {
    if f.IsDir() { CountBound(v.dirs[f.start]); }
    hide Count;
  }

  function ExtendDir(v: View, d: nat, n: nat): View
    requires d in v.dirs
  {
    v.(dirs := v.dirs[d := v.dirs[d] + NoSlots(n)])
  }

  /** A directory may grow by unused slots. */
  lemma ExtendOk(cs: nat, v: View, stale: nat, d: nat, n: nat)
    requires Coherent(cs, v, stale) && d in v.dirs
    ensures Coherent(cs, ExtendDir(v, d, n), stale)
    ensures forall l, f :: EntryAt(ExtendDir(v, d, n), l, f) <==> EntryAt(v, l, f)
  {
    hide Coherent, Rooted, RefsOk, EntryOk, ExtendDir;
    ExtendRooted(cs, v, stale, d, n);
    forall l, f | EntryAt(ExtendDir(v, d, n), l, f) ensures EntryAt(v, l, f)
      && EntryOk(cs, ExtendDir(v, d, n), l, f, stale) {
      ExtendOther(cs, v, stale, d, n, l, f);
    }
    forall l, f | EntryAt(v, l, f) ensures EntryAt(ExtendDir(v, d, n), l, f) {
      ExtendKeeps(v, d, n, l, f);
    }
    CoherentFrom(cs, ExtendDir(v, d, n), stale);
  }

  lemma CoherentFrom(cs: nat, v: View, stale: nat)
    requires cs >= FCB_SIZE && Rooted(v) && RefsOk(v) && forall l, f :: EntryAt(v, l, f) ==> EntryOk(cs, v, l, f, stale)
    ensures Coherent(cs, v, stale)
  {
    hide Rooted, RefsOk, EntryOk;
  }

  lemma ExtendRooted(cs: nat, v: View, stale: nat, d: nat, n: nat)
    requires Coherent(cs, v, stale) && d in v.dirs
    ensures cs >= FCB_SIZE && Rooted(ExtendDir(v, d, n)) && RefsOk(ExtendDir(v, d, n))
  {
    hide EntriesOk, NoSlots;
    ExtendRefsKept(v, d, n);
    hide RefsOk;
  }

  lemma ExtendKeeps(v: View, d: nat, n: nat, l: Loc, f: Fcb)
    requires d in v.dirs && EntryAt(v, l, f)
    ensures EntryAt(ExtendDir(v, d, n), l, f)
  {
    hide NoSlots;
  }

  lemma ExtendRefsKept(v: View, d: nat, n: nat)
    requires RefsOk(v) && d in v.dirs
    ensures RefsOk(ExtendDir(v, d, n))
  {
    forall s | s in v.refs ensures RefOk(ExtendDir(v, d, n), s) {
      assert RefOk(v, s);
    }
  }

  lemma ExtendOther(cs: nat, v: View, stale: nat, d: nat, n: nat, l: Loc, f: Fcb)
    requires Coherent(cs, v, stale) && d in v.dirs && EntryAt(ExtendDir(v, d, n), l, f)
    ensures EntryAt(v, l, f) && EntryOk(cs, ExtendDir(v, d, n), l, f, stale)
  {
    assert EntryAt(v, l, f);
    EntryFacts(cs, v, stale, l, f);
    CountExtend(v.dirs[d], n);
    hide Coherent, Count, NoSlots;
  }

  /** An object without an entry may appear. */
  lemma NewBlobOk(cs: nat, v: View, stale: nat, c: nat, bytes: seq<byte>)
    requires Coherent(cs, v, stale) && c !in v.dirs && c !in v.blobs
    ensures Coherent(cs, v.(blobs := v.blobs[c := bytes]), stale)
    ensures c !in v.refs
  {
    var v' := v.(blobs := v.blobs[c := bytes]);
    if c in v.refs {
      assert RefOk(v, c);
      var l := v.refs[c];
      assert EntryAt(v, l, v.dirs[l.dir][l.idx].fcb);
    }
    forall l, f | EntryAt(v', l, f) ensures EntryOk(cs, v', l, f, stale) {
      assert EntryAt(v, l, f);
      assert EntryOk(cs, v, l, f, stale);
    }
    assert EntriesOk(cs, v', stale);
    forall s | s in v'.refs ensures RefOk(v', s) {
      assert RefOk(v, s);
    }
    assert RefsOk(v');
    assert Rooted(v');
  }

  lemma AnyStale(cs: nat, v: View, stale: nat)
    requires Coherent(cs, v, ROOT)
    ensures Coherent(cs, v, stale)
  {
    forall l, f | EntryAt(v, l, f) ensures EntryOk(cs, v, l, f, stale) {
      assert EntryOk(cs, v, l, f, ROOT);
    }
  }

  /** The root has no recorded size that could be stale. */
  lemma RootIsNotStale(cs: nat, v: View, stale: nat)
    requires Coherent(cs, v, stale)
    ensures stale == ROOT ==> Coherent(cs, v, ROOT)
    ensures ROOT in v.dirs && ROOT in v.depth && 0 !in v.dirs && 0 !in v.refs && cs >= FCB_SIZE
  {
  }

  // --- the tree -------------------------------------------------------------------------------------

  /** Directory `t` lies below directory `a`, at most `n + 1` levels up. */
  ghost predicate Below(v: View, a: nat, t: nat, n: nat)
    decreases n
  {
    t in v.refs && (v.refs[t].dir == a || (n > 0 && Below(v, a, v.refs[t].dir, n - 1)))
  }

  lemma ParentOf(cs: nat, v: View, stale: nat, t: nat)
    requires Coherent(cs, v, stale) && t in v.dirs && t != ROOT
    ensures t in v.refs && HasSlot(v, v.refs[t]) && v.dirs[v.refs[t].dir][v.refs[t].idx].Occupied?
    ensures var f := v.dirs[v.refs[t].dir][v.refs[t].idx].fcb;
      f.start == t && f.IsDir() && EntryAt(v, v.refs[t], f)
    ensures t in v.depth && v.refs[t].dir in v.depth && v.depth[t] == v.depth[v.refs[t].dir] + 1
  {
    assert RefOk(v, t);
    var l := v.refs[t];
    EntryFacts(cs, v, stale, l, v.dirs[l.dir][l.idx].fcb);
  }

  lemma DirRecord(cs: nat, v: View, l: Loc, f: Fcb)
    requires Coherent(cs, v, ROOT) && EntryAt(v, l, f) && f.IsDir()
    ensures f.start in v.dirs && f.size == FCB_SIZE * Count(v.dirs[f.start])
  {
    hide Count;
    EntryFacts(cs, v, ROOT, l, f);
  }

  /** An object that is no directory and is not lost is the object of a file. */
  lemma RefEntry(cs: nat, v: View, stale: nat, s: nat) returns (f: Fcb)
    requires Coherent(cs, v, stale) && s in v.blobs && s in v.refs
    ensures EntryAt(v, v.refs[s], f) && f.start == s && f.IsFile() && IsFileAt(v, v.refs[s])
  {
    hide Count;
    assert RefOk(v, s);
    var l := v.refs[s];
    f := v.dirs[l.dir][l.idx].fcb;
    EntryFacts(cs, v, stale, l, f);
  }

  /** The directories form a tree: every one but the root lies below the root. */
  lemma {:induction false} AllBelowRoot(cs: nat, v: View, stale: nat, t: nat)
    requires Coherent(cs, v, stale) && t in v.dirs && t != ROOT
    ensures t in v.depth && Below(v, ROOT, t, v.depth[t])
    decreases if t in v.depth then v.depth[t] else 0
  {
    ParentOf(cs, v, stale, t);
    if v.refs[t].dir != ROOT {
      AllBelowRoot(cs, v, stale, v.refs[t].dir);
    }
  }

  /** The way down from `a` to `t` starts with a child of `a`. */
  lemma {:induction false} BelowViaChild(v: View, a: nat, t: nat, n: nat) returns (x: nat)
    requires Below(v, a, t, n)
    ensures x in v.refs && v.refs[x].dir == a && (x == t || Below(v, x, t, n))
    decreases n
  {
    if v.refs[t].dir == a {
      x := t;
    } else {
      x := BelowViaChild(v, a, v.refs[t].dir, n - 1);
    }
  }

  /** What lies above a directory is a directory. */
  lemma {:induction false} BelowIsDir(cs: nat, v: View, stale: nat, x: nat, t: nat, n: nat)
    requires Coherent(cs, v, stale) && t in v.dirs && t != ROOT
    requires x == t || (Below(v, x, t, n) && x in v.refs)
    ensures x in v.dirs && x != ROOT
    decreases n
  {
    if x != t {
      ParentOf(cs, v, stale, t);
      if v.refs[t].dir != x {
        assert Below(v, x, v.refs[t].dir, n - 1);
        BelowIsDir(cs, v, stale, x, v.refs[t].dir, n - 1);
      }
    }
  }

  /** Objects that no entry names: clusters in use that nothing can reach. */
  ghost function Lost(v: View): set<nat> { set b | b in v.blobs && b !in v.refs }

  // --- files ----------------------------------------------------------------------------------------

  ghost function FileLocs(v: View): set<Loc>
  {
    set d, i | d in v.dirs && 0 <= i < |v.dirs[d]| && v.dirs[d][i].Occupied? && v.dirs[d][i].fcb.IsFile() :: Loc(d, i)
  }

  /** The bytes of a file: its object cut at its size. */
  function Content(v: View, l: Loc): seq<byte>
    requires HasSlot(v, l) && v.dirs[l.dir][l.idx].Occupied?
  {
    var f := v.dirs[l.dir][l.idx].fcb;
    if f.start in v.blobs && f.size <= |v.blobs[f.start]| then v.blobs[f.start][..f.size] else []
  }

  /** The file system as a map from entries to byte strings. */
  ghost function Files(v: View): map<Loc, seq<byte>>
  {
    map l | l in FileLocs(v) :: Content(v, l)
  }

  lemma FileAt(cs: nat, v: View, stale: nat, l: Loc, f: Fcb)
    requires Coherent(cs, v, stale) && EntryAt(v, l, f) && f.IsFile()
    ensures l in Files(v) && |Files(v)[l]| == f.size
    ensures f.start != 0 ==>
      f.start in v.blobs && f.size <= |v.blobs[f.start]| && Files(v)[l] == v.blobs[f.start][..f.size]
    ensures f.start == 0 ==> f.size == 0 && Files(v)[l] == []
  {
    EntryFacts(cs, v, stale, l, f);
    DivCeilBounds(f.size, cs);
  }

  /** Writing at an offset pads the gap with zeros and overlays the data. */
  function WriteBytes(s: seq<byte>, off: nat, data: seq<byte>): seq<byte>
  {
    var p := if |s| < off then s + Zeros(off - |s|) else s;
    if |p| <= off + |data| then p[..off] + data else Splice(p, off, data)
  }

  /** Truncating takes a prefix or pads with zeros. */
  function TruncateBytes(s: seq<byte>, n: nat): seq<byte>
  {
    if n <= |s| then s[..n] else s + Zeros(n - |s|)
  }

  /** Extending an object by zeros keeps the file's bytes and the zeros behind them. */
  lemma PadObject(s: seq<byte>, size: nat, n: nat, cs: nat)
    requires size <= |s| && ZeroFrom(s, size)
    ensures (s + ZeroPad(n, cs))[..size] == s[..size] && ZeroFrom(s + ZeroPad(n, cs), size)
    ensures |s + ZeroPad(n, cs)| == |s| + n * cs
  {
  }

  /** A write into a zero-padded object is the write into the file, with zeros behind its new end. */
  lemma WriteObject(s: seq<byte>, size: nat, off: nat, data: seq<byte>)
    requires size <= |s| && ZeroFrom(s, size) && off + |data| <= |s|
    ensures var s', size' := (if data == [] then s else Splice(s, off, data)), Max(size, off + |data|);
      size' <= |s'| && s'[..size'] == WriteBytes(s[..size], off, data) && ZeroFrom(s', size')
  {
  }

  /** Filling the gap of a growing truncate with zeros changes no byte. */
  lemma ZeroFillIsIdle(s: seq<byte>, size: nat, n: nat)
    requires size <= n <= |s| && ZeroFrom(s, size)
    ensures ZeroRange(s, size, n - size) == s
    ensures s[..n] == TruncateBytes(s[..size], n) && ZeroFrom(s, n)
  {
  }

  /** A shrinking truncate cuts whole clusters and clears the rest of the last one. */
  lemma CutObject(s: seq<byte>, size: nat, n: nat, k: nat)
    requires n <= size <= |s| && ZeroFrom(s, size) && n <= k <= |s|
    ensures Splice(s[..k], n, Zeros(k - n))[..n] == TruncateBytes(s[..size], n)
    ensures ZeroFrom(Splice(s[..k], n, Zeros(k - n)), n)
  {
  }

  /** The bytes of a file's object; an empty file has none. */
  function ObjectOf(v: View, f: Fcb): seq<byte> { if f.start != 0 && f.start in v.blobs then v.blobs[f.start] else [] }

  lemma ObjectFacts(cs: nat, v: View, stale: nat, l: Loc, f: Fcb)
    requires Coherent(cs, v, stale) && EntryAt(v, l, f) && f.IsFile()
    ensures cs > 0 && (f.start == 0 <==> f.size == 0)
    ensures f.start != 0 ==> f.start in v.blobs && f.start !in v.dirs
    ensures |ObjectOf(v, f)| == Whole(f.size, cs) && f.size <= |ObjectOf(v, f)| && ZeroFrom(ObjectOf(v, f), f.size)
    ensures l in Files(v) && Files(v)[l] == ObjectOf(v, f)[..f.size] && |Files(v)[l]| == f.size
  {
    EntryFacts(cs, v, stale, l, f);
    FileAt(cs, v, stale, l, f);
    DivCeilBounds(f.size, cs);
    hide EntriesOk, RefsOk;
  }

  /** What the entry `f` shows of an object's bytes. */
  function Shown(f: Fcb, bytes: seq<byte>): seq<byte>
  {
    if f.start == 0 || f.size > |bytes| then [] else bytes[..f.size]
  }

  /** The map of files after one file's entry and bytes were replaced. */
  lemma SetFileFiles(cs: nat, v: View, stale: nat, l: Loc, f: Fcb, f': Fcb, bytes: seq<byte>)
    requires Coherent(cs, v, stale) && EntryAt(v, l, f) && MayName(v, f, f')
    requires FileOk(cs, map[f'.start := bytes], f')
    ensures Files(SetFile(v, l, f, f', bytes)) == Files(v)[l := Shown(f', bytes)]
  {
    hide Coherent, SetFile, FileOk, Files, Content, MayName;
    var v' := SetFile(v, l, f, f', bytes);
    MayNameFacts(v, f, f');
    RootIsNotStale(cs, v, stale);
    SetFileOk(cs, v, stale, l, f, f', bytes);
    SetFileContent(cs, v, l, f, f', bytes);
    forall l1 | l1 != l ensures IsFileAt(v', l1) <==> IsFileAt(v, l1) {
      EntryIs(v, v', l1);
      EntryIs(v', v, l1);
    }
    forall l1 | l1 != l && IsFileAt(v, l1) && IsFileAt(v', l1) ensures Content(v', l1) == Content(v, l1) {
      var f1 := v.dirs[l1.dir][l1.idx].fcb;
      EntryThere(v, l1);
      OtherContent(cs, v, stale, l, f, f', bytes, l1, f1);
    }
    EntryIsFile(v', l, f');
    hide IsFileAt, IsEntry;
    FilesFrom(v, v', l);
  }

  lemma EntryThere(v: View, l: Loc)
    requires IsEntry(v, l)
    ensures EntryAt(v, l, v.dirs[l.dir][l.idx].fcb)
  {
  }

  lemma EntryIsFile(v: View, l: Loc, f: Fcb)
    requires EntryAt(v, l, f)
    ensures IsEntry(v, l) && (IsFileAt(v, l) <==> f.IsFile())
  {
  }

  lemma MayNameFacts(v: View, f: Fcb, f': Fcb)
    requires MayName(v, f, f')
    ensures f.IsFile() && f'.IsFile() && (f'.start == f.start || f'.start == 0 || (f.start == 0 && f'.start !in v.refs))
  {
  }

  /** Exactly one file has changed, in its entry and its bytes. */
  ghost predicate Updated(v: View, l: Loc, f': Fcb, content: seq<byte>, v': View)
  {
    && Files(v') == Files(v)[l := content] && Lost(v') == Lost(v)
    && (forall l1, f1 :: EntryAt(v', l1, f1) <==> if l1 == l then f1 == f' else EntryAt(v, l1, f1))
    && v'.dirs.Keys == v.dirs.Keys && forall d :: d in v.dirs ==> |v'.dirs[d]| == |v.dirs[d]|
  }

  /** A write of `data` at `off` has happened to the file with entry `f`, whose entry is now `f'`. */
  ghost predicate Wrote(v: View, l: Loc, f: Fcb, off: nat, data: seq<byte>, now: Stamp, f': Fcb, v': View)
  {
    && l in Files(v) && off + |data| < U32_LIMIT
    && f' == f.(start := f'.start, size := Max(f.size, off + |data|), mtime := now.mtime, mdate := now.mdate)
    && Updated(v, l, f', WriteBytes(Files(v)[l], off, data), v')
  }

  /** A truncation to `size` has happened to the file with entry `f`, whose entry is now `f'`. */
  ghost predicate Truncated(v: View, l: Loc, f: Fcb, size: nat, now: Stamp, f': Fcb, v': View)
  {
    && l in Files(v) && size < U32_LIMIT
    && f' == f.(start := f'.start, size := size, mtime := now.mtime, mdate := now.mdate)
    && Updated(v, l, f', TruncateBytes(Files(v)[l], size), v')
  }

  /** The store holds what entry `f'` is going to show as `content` in place of `f`. */
  ghost predicate CanRecord(cs: nat, store: Store, v: View, f: Fcb, f': Fcb, bytes: seq<byte>, content: seq<byte>)
    requires cs > 0
  {
    && Represents(cs, store, PutBytes(v, f, f', bytes))
    && MayName(v, f, f') && FileOk(cs, map[f'.start := bytes], f') && Shown(f', bytes) == content
    && 0 !in v.blobs && (f'.start == f.start || f'.start !in v.blobs)
  }

  /** Replacing a file's object loses none. */
  lemma SetFileLost(cs: nat, v: View, stale: nat, l: Loc, f: Fcb, f': Fcb, bytes: seq<byte>)
    requires Coherent(cs, v, stale) && EntryAt(v, l, f)
    requires 0 !in v.blobs && (f'.start == f.start || f'.start !in v.blobs)
    ensures Lost(SetFile(v, l, f, f', bytes)) == Lost(v)
  {
    hide Rooted, RefsOk, EntryOk;
    EntryFacts(cs, v, stale, l, f);
    EntryKind(cs, v, l, f, stale);
  }

  lemma SetFileContent(cs: nat, v: View, l: Loc, f: Fcb, f': Fcb, bytes: seq<byte>)
    requires cs > 0 && EntryAt(v, l, f) && f'.IsFile() && FileOk(cs, map[f'.start := bytes], f')
    ensures var v' := SetFile(v, l, f, f', bytes);
      EntryAt(v', l, f') && Content(v', l) == Shown(f', bytes)
  {
    WholeBounds(f'.size, cs);
    hide Whole, ZeroFrom;
  }

  lemma OtherContent(cs: nat, v: View, stale: nat, l: Loc, f: Fcb, f': Fcb, bytes: seq<byte>, l1: Loc, f1: Fcb)
    requires Coherent(cs, v, stale) && EntryAt(v, l, f) && f.IsFile() && EntryAt(v, l1, f1) && l1 != l && f1.IsFile()
    requires f'.start == f.start || f'.start == 0 || (f.start == 0 && f'.start !in v.refs)
    ensures EntryAt(SetFile(v, l, f, f', bytes), l1, f1)
    ensures Content(SetFile(v, l, f, f', bytes), l1) == Content(v, l1)
  {
    EntryFacts(cs, v, stale, l1, f1);
    if f1.start != 0 && f1.start == f.start { EntriesDistinct(cs, v, stale, l, f, l1, f1); }
    hide Coherent, ZeroFrom, Whole;
  }

  /** A write into the grown object, seen as a write into the file. */
  lemma WrittenOk(cs: nat, v: View, stale: nat, l: Loc, f: Fcb, off: nat, data: seq<byte>)
    requires Coherent(cs, v, stale) && EntryAt(v, l, f) && f.IsFile()
    ensures l in Files(v) && off + |data| <= |ObjectOf(v, f) + ZeroPad(Missing(f.size, off + |data|, cs), cs)|
    ensures var room, size := ObjectOf(v, f) + ZeroPad(Missing(f.size, off + |data|, cs), cs),
      Max(f.size, off + |data|);
      var bytes := if data == [] then room else Splice(room, off, data);
      && |bytes| == Whole(size, cs) && ZeroFrom(bytes, size) && size <= |bytes|
      && bytes[..size] == WriteBytes(Files(v)[l], off, data)
  {
    hide Coherent, DivCeil, Whole, Missing, ZeroPad, ZeroFrom, WriteBytes, Splice, ObjectOf, Files;
    ObjectFacts(cs, v, stale, l, f);
    var n := Missing(f.size, off + |data|, cs);
    ZeroPadLen(n, cs);
    MissingFills(f.size, off + |data|, cs);
    PadObject(ObjectOf(v, f), f.size, n, cs);
    WriteObject(ObjectOf(v, f) + ZeroPad(n, cs), f.size, off, data);
  }

  /** Zero-filling the gap of a growing truncate in the grown object, seen as a truncation of the file. */
  lemma GrownOk(cs: nat, v: View, stale: nat, l: Loc, f: Fcb, size: nat)
    requires Coherent(cs, v, stale) && EntryAt(v, l, f) && f.IsFile() && size > f.size
    ensures l in Files(v)
    ensures var room := ObjectOf(v, f) + ZeroPad(Missing(f.size, size, cs), cs);
      && |room| == Whole(size, cs) && ZeroFrom(room, size) && size <= |room|
      && ZeroRange(room, f.size, size - f.size) == room
      && room[..size] == TruncateBytes(Files(v)[l], size)
  {
    hide Coherent, DivCeil, Whole, Missing, ZeroPad, ZeroFrom, TruncateBytes, ZeroRange, ObjectOf, Files;
    ObjectFacts(cs, v, stale, l, f);
    var n := Missing(f.size, size, cs);
    ZeroPadLen(n, cs);
    MissingFills(f.size, size, cs);
    PadObject(ObjectOf(v, f), f.size, n, cs);
    ZeroFillIsIdle(ObjectOf(v, f) + ZeroPad(n, cs), f.size, size);
  }

  /** Cutting the object and clearing the rest of its last cluster, seen as a truncation of the file. */
  lemma ShrunkOk(cs: nat, v: View, stale: nat, l: Loc, f: Fcb, size: nat)
    requires Coherent(cs, v, stale) && EntryAt(v, l, f) && f.IsFile() && 0 < size < f.size
    ensures l in Files(v) && f.start != 0 && size <= Whole(size, cs) <= |ObjectOf(v, f)|
    ensures var k := Whole(size, cs);
      var bytes := Splice(ObjectOf(v, f)[..k], size, Zeros(k - size));
      && k > 0 && |bytes| == k && ZeroFrom(bytes, size)
      && bytes[..size] == TruncateBytes(Files(v)[l], size)
  {
    hide Coherent, Whole, ZeroFrom, TruncateBytes, ObjectOf, Files;
    ObjectFacts(cs, v, stale, l, f);
    WholeBounds(size, cs);
    WholeMono(size, f.size, cs);
    CutObject(ObjectOf(v, f), f.size, size, Whole(size, cs));
  }

  // --- open files -------------------------------------------------------------------------------------

  const MAX_OPEN_FILES: nat := 10

  datatype OpenFile = OpenFile(loc: Loc, cursor: nat, fcb: Fcb)

  predicate HandleOk(v: View, o: OpenFile)
  {
    EntryAt(v, o.loc, o.fcb) && o.fcb.IsFile() && o.cursor <= o.fcb.size
  }

  /** Every handle caches the entry on the disk, its cursor is inside the file, and no two share a file. */
  predicate HandlesOk(v: View, open: seq<Option<OpenFile>>)
  {
    && |open| == MAX_OPEN_FILES
    && (forall h :: 0 <= h < |open| && open[h].Some? ==> HandleOk(v, open[h].value))
    && (forall h, k :: 0 <= h < k < |open| && open[h].Some? && open[k].Some? ==> open[h].value.loc != open[k].value.loc)
  }

  /** The handles after the entry of `l` has become `f`; a shrinking truncate also pulls the cursor back. */
  function Retarget(open: seq<Option<OpenFile>>, l: Loc, f: Fcb, clamp: bool): seq<Option<OpenFile>>
  {
    seq(|open|, i requires 0 <= i < |open| => RetargetOne(open[i], l, f, clamp))
  }

  function RetargetOne(o: Option<OpenFile>, l: Loc, f: Fcb, clamp: bool): Option<OpenFile>
  {
    if o.Some? && o.value.loc == l then
      Some(OpenFile(l, if clamp then Min(o.value.cursor, f.size) else o.value.cursor, f))
    else o
  }

  /** A handle of `l` gets the new entry, and its cursor goes back to the end if that is asked; others stay. */
  lemma RetargetIs(open: seq<Option<OpenFile>>, l: Loc, f: Fcb, clamp: bool)
    ensures var open' := Retarget(open, l, f, clamp);
      && |open'| == |open|
      && forall h :: 0 <= h < |open| ==> open'[h] == var o := open[h];
        if o.None? || o.value.loc != l then o
        else if clamp && o.value.cursor > f.size then Some(o.value.(fcb := f, cursor := f.size))
        else Some(o.value.(fcb := f))
  {
  }

  /** Handles stay coherent when the entry of one file changes and its handle is told. */
  lemma RetargetOk(v: View, v': View, open: seq<Option<OpenFile>>, l: Loc, f: Fcb, f': Fcb, clamp: bool)
    requires HandlesOk(v, open) && EntryAt(v, l, f) && EntryAt(v', l, f') && f'.IsFile()
    requires forall l1, f1 :: l1 != l && EntryAt(v, l1, f1) && f1.IsFile() ==> EntryAt(v', l1, f1)
    requires clamp || f.size <= f'.size
    ensures HandlesOk(v', Retarget(open, l, f', clamp))
  {
    forall h | 0 <= h < |open| && open[h].Some?
      ensures HandleOk(v', Retarget(open, l, f', clamp)[h].value)
    {
      assert HandleOk(v, open[h].value);
    }
  }

  /** Changes that leave the entries of open files alone leave the handles coherent. */
  lemma HandlesKept(v: View, v': View, open: seq<Option<OpenFile>>)
    requires HandlesOk(v, open)
    requires forall h, f :: 0 <= h < |open| && open[h].Some? && EntryAt(v, open[h].value.loc, f) && f.IsFile() ==>
      EntryAt(v', open[h].value.loc, f)
    ensures HandlesOk(v', open)
  {
  }

  // --- reading ----------------------------------------------------------------------------------------

  /** The entry of a file, or what its absence is reported as. */
  function FileEntry(v: View, l: Loc): Result<Fcb>
  {
    if !HasSlot(v, l) then Failure(CorruptFs(BeyondChain))
    else
      match v.dirs[l.dir][l.idx]
      case Occupied(f) => if f.IsDir() then Failure(IsADirectory) else Success(f)
      case _ => Failure(NotFoundAt(l))
  }

  lemma FileEntryIff(cs: nat, v: View, stale: nat, l: Loc)
    requires Coherent(cs, v, stale)
    ensures FileEntry(v, l).Success? <==> l in Files(v)
    ensures FileEntry(v, l).Success? ==> EntryAt(v, l, FileEntry(v, l).value) && FileEntry(v, l).value.IsFile()
    ensures FileEntry(v, l).Failure? ==> HasSlot(v, l) ==> v.dirs[l.dir][l.idx].Occupied? ==>
      v.dirs[l.dir][l.idx].fcb.IsDir()
  {
    if FileEntry(v, l).Success? {
      EntryFacts(cs, v, stale, l, FileEntry(v, l).value);
    }
  }

  /** The bytes of a file, and none for what is no file. */
  ghost function FileBytes(v: View, l: Loc): seq<byte> { if l in Files(v) then Files(v)[l] else [] }

  /** A write of `data` at `off` has happened to file `l` and its handle, and to nothing else. */
  ghost predicate FileWritten(v: View, open: seq<Option<OpenFile>>, l: Loc, off: nat, data: seq<byte>, now: Stamp,
                              v': View, open': seq<Option<OpenFile>>)
  {
    && FileEntry(v, l).Success? && FileEntry(v', l).Success?
    && Wrote(v, l, FileEntry(v, l).value, off, data, now, FileEntry(v', l).value, v')
    && open' == Retarget(open, l, FileEntry(v', l).value, false)
  }

  /** What an update says about the entries. */
  lemma UpdatedEntry(cs: nat, v: View, l: Loc, f: Fcb, f': Fcb, content: seq<byte>, v': View)
    requires Updated(v, l, f', content, v') && EntryAt(v, l, f) && f.IsFile() && f'.IsFile()
    ensures EntryAt(v', l, f') && FileEntry(v, l) == Success(f) && FileEntry(v', l) == Success(f')
    ensures forall l1, f1 :: l1 != l && EntryAt(v, l1, f1) ==> EntryAt(v', l1, f1)
  {
    hide Files;
  }

  /** At most `len` bytes from `off` on. */
  function ReadBytes(s: seq<byte>, off: nat, len: nat): seq<byte>
  {
    if off >= |s| then [] else s[off..Min(off + len, |s|)]
  }

  lemma ReadObject(s: seq<byte>, size: nat, off: nat, len: nat)
    requires size <= |s|
    ensures var n := Min(len, if size > off then size - off else 0);
      off + n <= |s| || n == 0
    ensures var n := Min(len, if size > off then size - off else 0);
      ReadBytes(s[..size], off, len) == if n == 0 then [] else s[off..off + n]
  {
  }

  /** A truncation to `size` has happened to file `l` and its handle, and to nothing else. */
  ghost predicate FileTruncated(v: View, open: seq<Option<OpenFile>>, l: Loc, size: nat, now: Stamp,
                                v': View, open': seq<Option<OpenFile>>)
  {
    && FileEntry(v, l).Success? && FileEntry(v', l).Success?
    && Truncated(v, l, FileEntry(v, l).value, size, now, FileEntry(v', l).value, v')
    && open' == Retarget(open, l, FileEntry(v', l).value, size < FileEntry(v, l).value.size)
  }

  /** An open file, or the error that the handle is reported with. */
  function HandleAt(open: seq<Option<OpenFile>>, h: nat): Result<OpenFile>
  {
    if h < |open| && open[h].Some? then Success(open[h].value) else Failure(InvalidHandle(h))
  }

  lemma HandleFacts(v: View, open: seq<Option<OpenFile>>, h: nat)
    requires HandlesOk(v, open) && HandleAt(open, h).Success?
    ensures var o := HandleAt(open, h).value;
      EntryAt(v, o.loc, o.fcb) && o.fcb.IsFile() && o.cursor <= o.fcb.size
      && FileEntry(v, o.loc) == Success(o.fcb) && o.loc.dir in v.dirs
  {
    assert HandleOk(v, open[h].value);
  }

  /** One handle may get another cursor inside its file, also together with a new entry of its file. */
  lemma HandleMoved(v: View, v': View, open: seq<Option<OpenFile>>, h: nat, f': Fcb, cursor: nat)
    requires HandlesOk(v, open) && HandleAt(open, h).Success?
    requires EntryAt(v', open[h].value.loc, f') && f'.IsFile() && cursor <= f'.size
    requires forall l1, f1 :: l1 != open[h].value.loc && EntryAt(v, l1, f1) && f1.IsFile() ==> EntryAt(v', l1, f1)
    ensures HandlesOk(v', open[h := Some(OpenFile(open[h].value.loc, cursor, f'))])
  {
    forall k | 0 <= k < |open| && k != h && open[k].Some? ensures HandleOk(v', open[k].value) {
      assert HandleOk(v, open[k].value);
      assert k < h ==> open[k].value.loc != open[h].value.loc;
      assert h < k ==> open[h].value.loc != open[k].value.loc;
    }
  }

  lemma TouchIsSet(v: View, l: Loc, f: Fcb, f': Fcb)
    requires EntryAt(v, l, f) && f'.start == f.start && 0 !in v.blobs && 0 !in v.refs
    requires f.start != 0 ==> f.start in v.refs && v.refs[f.start] == l && f.start in v.blobs
    ensures SetFile(v, l, f, f', ObjectOf(v, f)) == PutSlot(v, l, Occupied(f'))
  {
    if f.start == 0 {
      assert v.blobs - {0} == v.blobs && v.refs - {0} == v.refs;
    } else {
      assert v.blobs[f.start := v.blobs[f.start]] == v.blobs && v.refs[f.start := l] == v.refs;
    }
  }

  /** The times of an entry may change. */
  lemma TouchOk(cs: nat, v: View, l: Loc, f: Fcb, f': Fcb)
    requires Coherent(cs, v, ROOT) && 0 !in v.blobs && EntryAt(v, l, f)
      && f' == f.(mtime := f'.mtime, mdate := f'.mdate)
    ensures Coherent(cs, PutSlot(v, l, Occupied(f')), ROOT)
    ensures Files(PutSlot(v, l, Occupied(f'))) == Files(v)
    ensures forall l1, f1 :: EntryAt(PutSlot(v, l, Occupied(f')), l1, f1) <==> if l1 == l then f1 == f'
      else EntryAt(v, l1, f1)
  {
    hide Files, EntryOk;
    EntryFacts(cs, v, ROOT, l, f);
    assert f.IsDir() || f.IsFile() by { assert EntryOk(cs, v, l, f, ROOT); EntryKind(cs, v, l, f, ROOT); }
    hide Coherent;
    if f.IsDir() {
      TouchDirOk(cs, v, l, f, f');
    } else {
      TouchFileOk(cs, v, l, f, f');
    }
  }

  lemma EntryKind(cs: nat, v: View, l: Loc, f: Fcb, stale: nat)
    requires cs > 0 && EntryOk(cs, v, l, f, stale)
    ensures f.IsDir() || f.IsFile()
    ensures f.IsDir() ==> f.start in v.dirs && (f.start != stale ==> f.size == FCB_SIZE * Count(v.dirs[f.start]))
    ensures f.start != 0 ==> f.start in v.refs && v.refs[f.start] == l
  {
  }

  lemma TouchDirOk(cs: nat, v: View, l: Loc, f: Fcb, f': Fcb)
    requires Coherent(cs, v, ROOT) && EntryAt(v, l, f) && f.IsDir() && f' == f.(mtime := f'.mtime, mdate := f'.mdate)
    ensures Coherent(cs, PutSlot(v, l, Occupied(f')), ROOT)
    ensures Files(PutSlot(v, l, Occupied(f'))) == Files(v)
    ensures forall l1, f1 :: EntryAt(PutSlot(v, l, Occupied(f')), l1, f1) <==> if l1 == l then f1 == f'
      else EntryAt(v, l1, f1)
  {
    hide EntryOk, RefsOk, Rooted, Count;
    EntryFacts(cs, v, ROOT, l, f);
    EntryKind(cs, v, l, f, ROOT);
    assert f.start != ROOT by { assert EntryOk(cs, v, l, f, ROOT); DirEntryStart(cs, v, l, f, ROOT); }
    AnyStale(cs, v, f.start);
    RefreshOk(cs, v, l, f, f');
    hide Coherent, Files;
    SameFiles(v, l, f, f');
  }

  lemma DirEntryStart(cs: nat, v: View, l: Loc, f: Fcb, stale: nat)
    requires cs > 0 && EntryOk(cs, v, l, f, stale) && f.IsDir()
    ensures f.start != ROOT && f.start != 0
  {
  }

  /** The entry of a directory says nothing about the bytes of files. */
  lemma SameFiles(v: View, l: Loc, f: Fcb, f': Fcb)
    requires EntryAt(v, l, f) && f.IsDir() && f'.IsDir()
    ensures Files(PutSlot(v, l, Occupied(f'))) == Files(v)
  {
    var v' := PutSlot(v, l, Occupied(f'));
    assert FileLocs(v') == FileLocs(v);
    assert forall l1 :: l1 in FileLocs(v) ==> Content(v', l1) == Content(v, l1);
  }

  lemma TouchFileOk(cs: nat, v: View, l: Loc, f: Fcb, f': Fcb)
    requires Coherent(cs, v, ROOT) && 0 !in v.blobs && EntryAt(v, l, f) && f.IsFile()
      && f' == f.(mtime := f'.mtime, mdate := f'.mdate)
    ensures Coherent(cs, PutSlot(v, l, Occupied(f')), ROOT)
    ensures Files(PutSlot(v, l, Occupied(f'))) == Files(v)
    ensures forall l1, f1 :: EntryAt(PutSlot(v, l, Occupied(f')), l1, f1) <==> if l1 == l then f1 == f'
      else EntryAt(v, l1, f1)
  {
    hide EntryOk, RefsOk, Rooted, Files, Whole, ZeroFrom;
    EntryFacts(cs, v, ROOT, l, f);
    EntryKind(cs, v, l, f, ROOT);
    RootIsNotStale(cs, v, ROOT);
    hide Coherent;
    var bytes := ObjectOf(v, f);
    ObjectFacts(cs, v, ROOT, l, f);
    TouchIsSet(v, l, f, f');
    SetFileOk(cs, v, ROOT, l, f, f', bytes);
    SetFileFiles(cs, v, ROOT, l, f, f', bytes);
    assert Files(v)[l := Files(v)[l]] == Files(v);
  }

  predicate IsEntry(v: View, l: Loc) { HasSlot(v, l) && v.dirs[l.dir][l.idx].Occupied? }

  predicate IsOpen(open: seq<Option<OpenFile>>, l: Loc)
  {
    exists h :: 0 <= h < |open| && open[h].Some? && open[h].value.loc == l
  }

  /** The first handle from `i` on that is not in use. */
  function FirstClosed(open: seq<Option<OpenFile>>, i: nat): (r: Option<nat>)
    requires i <= |open|
    ensures r.Some? ==> i <= r.value < |open| && open[r.value].None?
    ensures forall h :: i <= h < |open| && (r.Some? ==> h < r.value) ==> open[h].Some?
    decreases |open| - i
  {
    if i == |open| then None else if open[i].None? then Some(i) else FirstClosed(open, i + 1)
  }

  /** Setting the time of an entry, in the tree and in the handles. */
  lemma TouchedOk(cs: nat, v: View, open: seq<Option<OpenFile>>, l: Loc, f: Fcb, now: Stamp)
    requires Coherent(cs, v, ROOT) && HandlesOk(v, open) && 0 !in v.blobs && EntryAt(v, l, f)
    ensures var v', open' := PutSlot(v, l, Occupied(f.Touch(now))), Retarget(open, l, f.Touch(now), false);
      Coherent(cs, v', ROOT) && HandlesOk(v', open') && Touched(v, open, l, now, v', open')
  {
    hide Coherent, HandlesOk, Files, Retarget, Lost;
    var v' := PutSlot(v, l, Occupied(f.Touch(now)));
    TouchOk(cs, v, l, f, f.Touch(now));
    TouchHandles(cs, v, v', open, l, f, f.Touch(now));
    PutSlotCounts(v, l, Occupied(f.Touch(now)));
    SameLost(v, v');
  }

  /** Setting the time of an entry has changed that entry and its handle, and nothing else. */
  ghost predicate Touched(v: View, open: seq<Option<OpenFile>>, l: Loc, now: Stamp, v': View,
    open': seq<Option<OpenFile>>)
  {
    && IsEntry(v, l) && Files(v') == Files(v) && Lost(v') == Lost(v) && v'.dirs.Keys == v.dirs.Keys
    && SlotCounts(v') == SlotCounts(v)
    && var f' := v.dirs[l.dir][l.idx].fcb.(mtime := now.mtime, mdate := now.mdate);
      && (forall l1, f1 :: EntryAt(v', l1, f1) <==> if l1 == l then f1 == f' else EntryAt(v, l1, f1))
      && open' == Retarget(open, l, f', false)
  }

  lemma TouchedIs(v: View, open: seq<Option<OpenFile>>, l: Loc, now: Stamp, v': View, open': seq<Option<OpenFile>>)
    requires Touched(v, open, l, now, v', open')
    ensures EntryAt(v', l, v.dirs[l.dir][l.idx].fcb.(mtime := now.mtime, mdate := now.mdate))
  {
    hide Files, Lost, Retarget;
  }

  lemma TouchHandles(cs: nat, v: View, v': View, open: seq<Option<OpenFile>>, l: Loc, f: Fcb, f': Fcb)
    requires HandlesOk(v, open) && EntryAt(v, l, f)
    requires f'.attr == f.attr && f'.size == f.size
    requires forall l1, f1 :: EntryAt(v', l1, f1) <==> if l1 == l then f1 == f' else EntryAt(v, l1, f1)
    ensures HandlesOk(v', Retarget(open, l, f', false))
  {
    assert EntryAt(v', l, f');
    if f.IsFile() {
      RetargetOk(v, v', open, l, f, f', false);
    } else {
      forall h | 0 <= h < |open| && open[h].Some? ensures open[h].value.loc != l {
        assert HandleOk(v, open[h].value);
      }
      assert Retarget(open, l, f', false) == open;
      HandlesKept(v, v', open);
    }
  }

  /** A write of `data` through handle `h` has happened, moving its cursor. */
  ghost predicate HandleWritten(v: View, open: seq<Option<OpenFile>>, h: nat, data: seq<byte>, now: Stamp,
                                v': View, open': seq<Option<OpenFile>>)
  {
    && HandleAt(open, h).Success?
    && var o := open[h].value;
      && FileEntry(v, o.loc).Success? && FileEntry(v', o.loc).Success?
      && Wrote(v, o.loc, FileEntry(v, o.loc).value, o.cursor, data, now, FileEntry(v', o.loc).value, v')
      && open' == open[h := Some(OpenFile(o.loc, o.cursor + |data|, FileEntry(v', o.loc).value))]
  }

  // --- entries that come and go -----------------------------------------------------------------------

  function DirBytes(v: View, d: nat): nat { if d in v.dirs then FCB_SIZE * Count(v.dirs[d]) else 0 }

  /** The entry of directory `d` gets its current size; other entries stay. */
  function Aged(f: Fcb, d: nat, size: nat, later: Stamp): Fcb
  {
    if f.IsDir() && f.start == d && d != ROOT && size < U32_LIMIT then
      f.(size := size, mtime := later.mtime, mdate := later.mdate)
    else f
  }

  /** Entry `f` has appeared at `l`; apart from the record of the directory it lies in nothing has changed. */
  ghost predicate Added(v: View, l: Loc, f: Fcb, later: Stamp, v': View)
  {
    && !IsEntry(v, l) && EntryAt(v', l, f)
    && (forall l1 :: IsEntry(v', l1) <==> l1 == l || IsEntry(v, l1))
    && (forall l1, f1 :: EntryAt(v, l1, f1) ==> EntryAt(v', l1, Aged(f1, l.dir, DirBytes(v', l.dir), later)))
    && Files(v') == (if f.IsFile() then Files(v)[l := []] else Files(v))
    && (forall d :: d in v'.dirs <==> d in v.dirs || (f.IsDir() && d == f.start))
  }

  /** The entry at `l` has gone; apart from the record of the directory it lay in nothing has changed. */
  ghost predicate Removed(v: View, l: Loc, f: Fcb, later: Stamp, v': View)
  {
    && EntryAt(v, l, f)
    && (forall l1 :: IsEntry(v', l1) <==> l1 != l && IsEntry(v, l1))
    && (forall l1, f1 :: l1 != l && EntryAt(v, l1, f1) ==> EntryAt(v', l1, Aged(f1, l.dir, DirBytes(v', l.dir), later)))
    && Files(v') == Files(v) - {l} && Lost(v') == Lost(v)
    && (forall d :: d in v'.dirs <==> d in v.dirs && !(f.IsDir() && d == f.start))
  }

  /** The entry of directory `d` (attribute 16) has got its size, 24 bytes for each entry in it, and the time. */
  ghost predicate ParentDated(v: View, d: nat, later: Stamp, v': View)
  {
    forall l, f :: EntryAt(v, l, f) && f.attr == 16 && f.start == d ==>
      && d in v'.dirs && 24 * Count(v'.dirs[d]) < U32_LIMIT
      && EntryAt(v', l, f.(size := 24 * Count(v'.dirs[d]), mtime := later.mtime, mdate := later.mdate))
  }

  lemma AddedIs(v: View, l: Loc, f: Fcb, later: Stamp, v': View)
    requires Added(v, l, f, later, v')
    ensures EntryAt(v', l, f)
  {
    hide Files;
  }

  lemma AddedDates(cs: nat, v: View, l: Loc, f: Fcb, later: Stamp, v': View)
    requires Coherent(cs, v, ROOT) && Coherent(cs, v', ROOT) && l.dir in v.dirs && Added(v, l, f, later, v')
    ensures ParentDated(v, l.dir, later, v')
  {
    hide Coherent, Files, Count;
    forall l1, f1 | EntryAt(v, l1, f1) && f1.attr == 16 && f1.start == l.dir
      ensures EntryAt(v', l1, Aged(f1, l.dir, DirBytes(v', l.dir), later))
      ensures f1.start != ROOT && DirBytes(v', l.dir) < U32_LIMIT
    {
      AgedIsDated(cs, v, l1, f1, later, v');
    }
  }

  lemma RemovedDates(cs: nat, v: View, l: Loc, f: Fcb, later: Stamp, v': View)
    requires Coherent(cs, v, ROOT) && Coherent(cs, v', ROOT) && l.dir in v.dirs && Removed(v, l, f, later, v')
    ensures ParentDated(v, l.dir, later, v')
  {
    hide Coherent, Files, Count, Lost;
    forall l1, f1 | EntryAt(v, l1, f1) && f1.attr == 16 && f1.start == l.dir
      ensures EntryAt(v', l1, Aged(f1, l.dir, DirBytes(v', l.dir), later))
      ensures f1.start != ROOT && DirBytes(v', l.dir) < U32_LIMIT && l.dir in v'.dirs
    {
      DirDeeper(cs, v, l1, f1);
      AgedIsDated(cs, v, l1, f1, later, v');
    }
  }

  /** No directory has its entry in itself. */
  lemma DirDeeper(cs: nat, v: View, l: Loc, f: Fcb)
    requires Coherent(cs, v, ROOT) && EntryAt(v, l, f) && f.IsDir()
    ensures f.start != l.dir
  {
  }

  /** The size that a directory's entry has got is the size it should have, so it fits. */
  lemma AgedIsDated(cs: nat, v: View, l: Loc, f: Fcb, later: Stamp, v': View)
    requires Coherent(cs, v, ROOT) && Coherent(cs, v', ROOT) && EntryAt(v, l, f) && f.attr == 16
    requires EntryAt(v', l, Aged(f, f.start, DirBytes(v', f.start), later))
    ensures f.start != ROOT && f.start in v'.dirs && DirBytes(v', f.start) < U32_LIMIT
  {
    hide Count;
    EntryFacts(cs, v, ROOT, l, f);
    EntryFacts(cs, v', ROOT, l, Aged(f, f.start, DirBytes(v', f.start), later));
    hide Coherent;
  }

  /** Refreshing a directory's record changes that record alone. */
  lemma RefreshedEntries(cs: nat, v: View, dir: nat, later: Stamp)
    requires Coherent(cs, v, dir) && dir in v.dirs && DirBytes(v, dir) < U32_LIMIT
    ensures var v' := Refreshed(v, dir, later);
      && DirBytes(v', dir) == DirBytes(v, dir) && v'.dirs.Keys == v.dirs.Keys && Files(v') == Files(v)
      && (forall l1 :: IsEntry(v', l1) <==> IsEntry(v, l1))
      && (forall l1, f1 :: EntryAt(v, l1, f1) ==> EntryAt(v', l1, Aged(f1, dir, DirBytes(v, dir), later)))
  {
    hide Rooted, RefsOk, Count, EntriesOk, EntryOk, Files;
    if dir == ROOT {
    } else {
      ParentOf(cs, v, dir, dir);
      var l := v.refs[dir];
      var f := v.dirs[l.dir][l.idx].fcb;
      var f' := f.(size := DirBytes(v, dir)).Touch(later);
      CountUpdate(v.dirs[l.dir], l.idx, Occupied(f'));
      SameFiles(v, l, f, f');
      forall l1, f1 | EntryAt(v, l1, f1) && l1 != l ensures !(f1.IsDir() && f1.start == dir) {
        if f1.start == dir { RootIsNotStale(cs, v, dir); EntriesDistinct(cs, v, dir, l, f, l1, f1); }
      }
      hide Coherent;
    }
  }

  lemma AddEntryFiles(cs: nat, v: View, l: Loc, f: Fcb, n: nat)
    requires Coherent(cs, v, ROOT) && HasSlot(v, l) && !IsEntry(v, l)
    requires f.size == 0 && (f.IsDir() || f.IsFile())
    requires f.IsDir() ==> f.start != 0 && f.start !in v.dirs && f.start !in v.refs
    ensures var v2 := AddEntry(v, l, f, NoSlots(n));
      Files(v2) == if f.IsFile() then Files(v)[l := []] else Files(v)
  {
    var v2 := AddEntry(v, l, f, NoSlots(n));
    hide Coherent, AddEntry, Files, Content;
    AddEntryShape(v, l, f, n);
    forall l1 | IsFileAt(v, l1) ensures l1 != l && IsFileAt(v2, l1) && Content(v2, l1) == Content(v, l1) {
      AddEntryContent(cs, v, l, f, n, l1);
    }
    forall l1 | IsFileAt(v2, l1) && l1 != l ensures IsFileAt(v, l1) {
      assert EntryAt(v, l1, v.dirs[l1.dir][l1.idx].fcb);
    }
    EmptyContent(v2, l, f);
    FilesFrom(v, v2, l);
  }

  /** Two views whose files agree except at `l`. */
  lemma FilesFrom(v: View, v': View, l: Loc)
    requires forall l1 :: l1 != l ==> (IsFileAt(v', l1) <==> IsFileAt(v, l1))
    requires forall l1 :: l1 != l && IsFileAt(v, l1) && IsFileAt(v', l1) ==> Content(v', l1) == Content(v, l1)
    ensures IsFileAt(v', l) ==> Files(v') == Files(v)[l := Content(v', l)]
    ensures !IsFileAt(v', l) ==> Files(v') == Files(v) - {l}
    ensures !IsFileAt(v, l) ==> Files(v) - {l} == Files(v)
  {
    FileLocsIff(v);
    FileLocsIff(v');
    hide FileLocs, Content;
  }

  predicate IsFileAt(v: View, l: Loc) { IsEntry(v, l) && v.dirs[l.dir][l.idx].fcb.IsFile() }

  lemma FileLocsIff(v: View)
    ensures forall l :: l in FileLocs(v) <==> IsFileAt(v, l)
  {
  }

  lemma EmptyContent(v: View, l: Loc, f: Fcb)
    requires EntryAt(v, l, f) && f.size == 0
    ensures Content(v, l) == []
  {
  }

  lemma AddEntryContent(cs: nat, v: View, l: Loc, f: Fcb, n: nat, l1: Loc)
    requires Coherent(cs, v, ROOT) && HasSlot(v, l) && !IsEntry(v, l) && IsFileAt(v, l1)
    requires f.IsDir() ==> f.start != 0 && f.start !in v.dirs && f.start !in v.refs
    ensures IsFileAt(AddEntry(v, l, f, NoSlots(n)), l1)
    ensures Content(AddEntry(v, l, f, NoSlots(n)), l1) == Content(v, l1)
  {
    var f1 := v.dirs[l1.dir][l1.idx].fcb;
    FileIsNoRef(cs, v, l1, f1);
    AddEntryShape(v, l, f, n);
    AddEntryBlob(v, l, f, n, f1.start);
    hide Coherent, AddEntry;
    assert EntryAt(v, l1, f1);
  }

  lemma AddEntryBlob(v: View, l: Loc, f: Fcb, n: nat, b: nat)
    requires HasSlot(v, l) && (f.IsDir() ==> b != f.start)
    ensures var v2 := AddEntry(v, l, f, NoSlots(n));
      (b in v2.blobs <==> b in v.blobs) && (b in v.blobs ==> v2.blobs[b] == v.blobs[b])
  {
  }

  /** The object of a file is no directory, and nothing but the file refers to it. */
  lemma FileIsNoRef(cs: nat, v: View, l: Loc, f: Fcb)
    requires Coherent(cs, v, ROOT) && EntryAt(v, l, f) && f.IsFile()
    ensures f.start != 0 ==> f.start in v.blobs && f.start !in v.dirs && f.start in v.refs
    ensures f.start == 0 ==> f.start !in v.dirs
  {
    EntryFacts(cs, v, ROOT, l, f);
    hide EntriesOk, RefsOk, ZeroFrom, Whole;
  }

  lemma AddEntryShape(v: View, l: Loc, f: Fcb, n: nat)
    requires HasSlot(v, l) && !IsEntry(v, l) && (f.IsDir() ==> f.start !in v.dirs)
    ensures var v2 := AddEntry(v, l, f, NoSlots(n));
      && EntryAt(v2, l, f)
      && (forall l1 :: IsEntry(v2, l1) <==> l1 == l || IsEntry(v, l1))
      && (forall l1, f1 :: EntryAt(v, l1, f1) ==> EntryAt(v2, l1, f1))
      && (forall d :: d in v2.dirs <==> d in v.dirs || (f.IsDir() && d == f.start))
  {
  }

  /** Adding an entry to a slot that had none, and refreshing its directory. */
  lemma AddedOk(cs: nat, v: View, l: Loc, f: Fcb, n: nat, later: Stamp)
    requires Coherent(cs, v, ROOT) && HasSlot(v, l) && !IsEntry(v, l)
    requires f.size == 0 && (f.IsDir() || (f.IsFile() && f.start == 0))
    requires f.IsDir() ==> f.start != 0 && f.start !in v.dirs && f.start !in v.refs
    requires DirBytes(AddEntry(v, l, f, NoSlots(n)), l.dir) < U32_LIMIT
    ensures var v2 := AddEntry(v, l, f, NoSlots(n));
      Added(v, l, f, later, Refreshed(v2, l.dir, later))
  {
    hide Coherent, Files, Refreshed, NoSlots, AddEntry, Aged, DirBytes;
    AddEntryOk(cs, v, l, f, n);
    AddEntryFiles(cs, v, l, f, n);
    AddEntryShape(v, l, f, n);
    RefreshedEntries(cs, AddEntry(v, l, f, NoSlots(n)), l.dir, later);
    NotAged(v, l, f, DirBytes(AddEntry(v, l, f, NoSlots(n)), l.dir), later);
  }

  lemma NotAged(v: View, l: Loc, f: Fcb, size: nat, later: Stamp)
    requires l.dir in v.dirs && (f.IsDir() ==> f.start !in v.dirs)
    ensures Aged(f, l.dir, size, later) == f
  {
  }

  lemma RemoveEntryFiles(cs: nat, v: View, l: Loc, f: Fcb)
    requires Coherent(cs, v, ROOT) && EntryAt(v, l, f)
    requires f.IsDir() ==> f.start in v.dirs && Count(v.dirs[f.start]) == 0
    ensures Files(RemoveEntry(v, l, f)) == Files(v) - {l}
  {
    var v2 := RemoveEntry(v, l, f);
    hide Coherent, RemoveEntry, Files, Content;
    RemoveEntryShape(v, l, f);
    forall l1 | l1 != l && IsFileAt(v, l1) ensures IsFileAt(v2, l1) && Content(v2, l1) == Content(v, l1) {
      RemoveEntryContent(cs, v, l, f, l1);
    }
    forall l1 | IsFileAt(v2, l1) ensures l1 != l && IsFileAt(v, l1) {
      assert EntryAt(v, l1, v.dirs[l1.dir][l1.idx].fcb);
    }
    FilesFrom(v, v2, l);
  }

  lemma RemoveEntryContent(cs: nat, v: View, l: Loc, f: Fcb, l1: Loc)
    requires Coherent(cs, v, ROOT) && EntryAt(v, l, f) && l1 != l && IsFileAt(v, l1)
    requires f.IsDir() ==> f.start in v.dirs && Count(v.dirs[f.start]) == 0
    ensures IsFileAt(RemoveEntry(v, l, f), l1) && Content(RemoveEntry(v, l, f), l1) == Content(v, l1)
  {
    hide Coherent, Count, EntryOk;
    var f1 := v.dirs[l1.dir][l1.idx].fcb;
    ObjectFacts(cs, v, ROOT, l1, f1);
    if f1.start != 0 && f1.start == f.start { EntriesDistinct(cs, v, ROOT, l, f, l1, f1); }
    hide ObjectOf, Files;
    RemoveKeeps(v, l, f, l1, f1);
  }

  lemma RemoveEntryShape(v: View, l: Loc, f: Fcb)
    requires EntryAt(v, l, f) && (f.IsDir() ==> f.start in v.dirs && Count(v.dirs[f.start]) == 0)
    ensures var v2 := RemoveEntry(v, l, f);
      && (forall l1 :: IsEntry(v2, l1) <==> l1 != l && IsEntry(v, l1))
      && (forall l1, f1 :: l1 != l && EntryAt(v, l1, f1) ==> EntryAt(v2, l1, f1))
      && (forall d :: d in v2.dirs <==> d in v.dirs && !(f.IsDir() && d == f.start))
  {
    if f.IsDir() { CountBound(v.dirs[f.start]); }
    hide Count;
  }

  /** Removing an entry with its object loses none; refreshing does not touch any. */
  lemma RemoveEntryLost(cs: nat, v: View, l: Loc, f: Fcb, later: Stamp)
    requires Coherent(cs, v, ROOT) && EntryAt(v, l, f) && 0 !in v.blobs
    ensures Lost(Refreshed(RemoveEntry(v, l, f), l.dir, later)) == Lost(v)
  {
    hide Rooted, RefsOk, EntryOk, Count;
    EntryFacts(cs, v, ROOT, l, f);
    EntryKind(cs, v, l, f, ROOT);
    RootedApart(cs, v, f);
  }

  lemma RootedApart(cs: nat, v: View, f: Fcb)
    requires Coherent(cs, v, ROOT)
    ensures f.start in v.dirs ==> f.start !in v.blobs
  {
  }

  /** A new directory's object is not lost any more; a new file has none. */
  lemma AddEntryLost(v: View, l: Loc, f: Fcb, n: nat, later: Stamp)
    requires HasSlot(v, l)
    ensures Lost(Refreshed(AddEntry(v, l, f, NoSlots(n)), l.dir, later)) == Lost(v) - if f.IsDir() then {f.start}
      else {}
  {
    hide Count, NoSlots;
  }

  lemma LeakedLost(v: View, c: nat, cs: nat)
    requires c !in v.refs
    ensures Lost(Leaked(v, c, cs)) == Lost(v) + {c}
  {
  }

  lemma SameLost(v: View, v': View)
    requires v'.blobs == v.blobs && v'.refs == v.refs
    ensures Lost(v') == Lost(v)
  {
  }

  /** Removing an entry and refreshing its directory. */
  lemma RemovedOk(cs: nat, v: View, l: Loc, f: Fcb, later: Stamp)
    requires Coherent(cs, v, ROOT) && EntryAt(v, l, f) && 0 !in v.blobs
    requires f.IsDir() ==> f.start in v.dirs && Count(v.dirs[f.start]) == 0
    requires DirBytes(RemoveEntry(v, l, f), l.dir) < U32_LIMIT
    ensures Removed(v, l, f, later, Refreshed(RemoveEntry(v, l, f), l.dir, later))
  {
    hide Coherent, Files, Refreshed, RemoveEntry, Aged, DirBytes, Count, Lost;
    RemoveEntryOk(cs, v, l, f);
    RemoveEntryFiles(cs, v, l, f);
    RemoveEntryShape(v, l, f);
    RemoveEntryLost(cs, v, l, f, later);
    RefreshedEntries(cs, RemoveEntry(v, l, f), l.dir, later);
  }

  /** Open files keep their entries when others come, go, or get a new size record. */
  lemma AgedHandles(v: View, v': View, open: seq<Option<OpenFile>>, d: nat, size: nat, later: Stamp)
    requires HandlesOk(v, open)
    requires forall h, f :: 0 <= h < |open| && open[h].Some? && EntryAt(v, open[h].value.loc, f) ==>
      EntryAt(v', open[h].value.loc, Aged(f, d, size, later))
    ensures HandlesOk(v', open)
  {
    forall h, f | 0 <= h < |open| && open[h].Some? && EntryAt(v, open[h].value.loc, f) && f.IsFile()
      ensures EntryAt(v', open[h].value.loc, f)
    {
      assert Aged(f, d, size, later) == f;
    }
    HandlesKept(v, v', open);
  }

  /** The views show the same entries and the same files. */
  ghost predicate SameEntries(v: View, v': View)
  {
    && (forall l, f :: EntryAt(v', l, f) <==> EntryAt(v, l, f))
    && (forall l :: IsEntry(v', l) <==> IsEntry(v, l))
    && Files(v') == Files(v) && v'.dirs.Keys == v.dirs.Keys
  }

  lemma SameIfEntries(v: View, v': View)
    requires forall l, f :: EntryAt(v', l, f) <==> EntryAt(v, l, f)
    requires v'.dirs.Keys == v.dirs.Keys
    requires forall l :: IsFileAt(v, l) && IsFileAt(v', l) ==> Content(v', l) == Content(v, l)
    ensures SameEntries(v, v')
  {
    hide Files, Content, EntryAt;
    forall l ensures (IsEntry(v', l) <==> IsEntry(v, l)) && (IsFileAt(v', l) <==> IsFileAt(v, l)) {
      EntryIs(v, v', l);
      EntryIs(v', v, l);
    }
    hide IsEntry, IsFileAt;
    SameFileMap(v, v');
  }

  lemma EntryIs(v: View, v': View, l: Loc)
    requires forall f :: EntryAt(v, l, f) ==> EntryAt(v', l, f)
    ensures IsEntry(v, l) ==> IsEntry(v', l)
    ensures IsFileAt(v, l) ==> IsFileAt(v', l)
  {
    if IsEntry(v, l) {
      var f := v.dirs[l.dir][l.idx].fcb;
      assert EntryAt(v, l, f);
    }
  }

  lemma SameFileMap(v: View, v': View)
    requires forall l :: IsFileAt(v', l) <==> IsFileAt(v, l)
    requires forall l :: IsFileAt(v, l) && IsFileAt(v', l) ==> Content(v', l) == Content(v, l)
    ensures Files(v') == Files(v)
  {
    FileLocsIff(v);
    FileLocsIff(v');
    hide FileLocs, Content;
  }

  /** A directory that has grown shows the same. */
  lemma ExtendShows(cs: nat, v: View, d: nat, n: nat)
    requires Coherent(cs, v, ROOT) && d in v.dirs
    ensures SameEntries(v, ExtendDir(v, d, n))
  {
    ExtendOk(cs, v, ROOT, d, n);
    hide Coherent;
    var v' := ExtendDir(v, d, n);
    forall l | IsFileAt(v, l) && IsFileAt(v', l) ensures Content(v', l) == Content(v, l) {
      assert EntryAt(v, l, v.dirs[l.dir][l.idx].fcb);
    }
    hide ExtendDir, Content, SameEntries;
    SameIfEntries(v, v');
  }

  /** An object without an entry does not show. */
  lemma BlobShows(cs: nat, v: View, c: nat, bytes: seq<byte>)
    requires Coherent(cs, v, ROOT) && c !in v.dirs && c !in v.blobs && c != 0
    ensures SameEntries(v, v.(blobs := v.blobs[c := bytes]))
  {
    var v' := v.(blobs := v.blobs[c := bytes]);
    NewBlobOk(cs, v, ROOT, c, bytes);
    forall l | IsFileAt(v, l) && IsFileAt(v', l) ensures Content(v', l) == Content(v, l) {
      EntryFacts(cs, v, ROOT, l, v.dirs[l.dir][l.idx].fcb);
    }
    hide Coherent, Content, SameEntries;
    SameIfEntries(v, v');
  }

  lemma AddedSince(v: View, v1: View, l: Loc, f: Fcb, later: Stamp, v': View)
    requires SameEntries(v, v1) && Added(v1, l, f, later, v')
    ensures Added(v, l, f, later, v')
  {
    hide Files, Aged, DirBytes;
  }

  lemma SameEntriesTrans(v: View, v1: View, v2: View)
    requires SameEntries(v, v1) && SameEntries(v1, v2)
    ensures SameEntries(v, v2)
  {
    hide Files;
  }

  /** A zeroed blob whose entry has been written is a directory of unused slots. */
  lemma AddRepresents(cs: nat, store: Store, v: View, l: Loc, f: Fcb)
    requires HasSlot(v, l) && Represents(cs, store, PutSlot(v, l, Occupied(f)))
    requires f.IsDir() ==> f.start in v.blobs && v.blobs[f.start] == Zeros(cs)
    ensures Represents(cs, store, AddEntry(v, l, f, NoSlots(PerCluster(cs))))
  {
    SlotsOfZeros(cs);
    hide Slots, NoSlots, Zeros;
  }

  /** What remains when the object of an entry has been freed and the entry itself still stands. */
  function Without(v: View, f: Fcb): View
  {
    if f.IsDir() then v.(dirs := v.dirs - {f.start}) else v.(blobs := v.blobs - {f.start})
  }

  lemma WithoutRepresents(cs: nat, store: Store, v: View, f: Fcb)
    requires Represents(cs, store, v) && (if f.IsDir() then f.start in v.dirs else f.start !in v.dirs)
    ensures Represents(cs, store - {f.start}, Without(v, f))
  {
    hide Slots;
  }

  lemma RemoveRepresents(cs: nat, store: Store, v: View, l: Loc, f: Fcb)
    requires HasSlot(v, l) && (f.IsDir() ==> l.dir != f.start) && HasSlot(Without(v, f), l)
    requires Represents(cs, store, PutSlot(Without(v, f), l, Deleted))
    ensures Represents(cs, store, RemoveEntry(v, l, f))
  {
    if f.IsDir() {
      DropCommutes(v.dirs, f.start, l.dir, v.dirs[l.dir][l.idx := Deleted]);
    }
    RepresentsSame(cs, store, PutSlot(Without(v, f), l, Deleted), RemoveEntry(v, l, f));
    hide Represents;
  }

  lemma DropCommutes(m: map<nat, seq<DirSlot>>, s: nat, k: nat, x: seq<DirSlot>)
    requires k != s
    ensures (m - {s})[k := x] == m[k := x] - {s}
  {
  }

  lemma RepresentsSame(cs: nat, store: Store, v: View, v': View)
    requires v'.dirs == v.dirs && v'.blobs == v.blobs
    ensures Represents(cs, store, v) ==> Represents(cs, store, v')
  {
    hide Slots;
  }

  /** A zeroed object that nobody names. */
  predicate IsNewDir(v: View, cs: nat, c: nat)
  {
    c != 0 && c !in v.dirs && c !in v.refs && c in v.blobs && v.blobs[c] == Zeros(cs)
  }

  lemma NewDirFacts(v: View, cs: nat, c: nat)
    requires IsNewDir(v, cs, c)
    ensures c != 0 && c !in v.dirs && c !in v.refs
  {
  }

  lemma AddEntryDirs(v: View, l: Loc, f: Fcb, n: nat)
    requires HasSlot(v, l) && !IsEntry(v, l)
    ensures l.dir in AddEntry(v, l, f, NoSlots(n)).dirs
  {
  }

  lemma DirBytesAt(v: View, d: nat)
    requires d in v.dirs
    ensures DirBytes(v, d) == FCB_SIZE * Count(v.dirs[d])
  {
  }

  lemma AddedHandles(v: View, v': View, open: seq<Option<OpenFile>>, l: Loc, f: Fcb, later: Stamp)
    requires HandlesOk(v, open) && Added(v, l, f, later, v')
    ensures HandlesOk(v', open)
  {
    hide Files, DirBytes;
    AgedHandles(v, v', open, l.dir, DirBytes(v', l.dir), later);
  }

  lemma RemovedHandles(v: View, v': View, open: seq<Option<OpenFile>>, l: Loc, f: Fcb, later: Stamp)
    requires HandlesOk(v, open) && Removed(v, l, f, later, v') && (f.IsDir() || !IsOpen(open, l))
    ensures HandlesOk(v', open)
  {
    hide Files, DirBytes;
    forall h | 0 <= h < |open| && open[h].Some? ensures open[h].value.loc != l {
      assert HandleOk(v, open[h].value);
    }
    AgedHandles(v, v', open, l.dir, DirBytes(v', l.dir), later);
  }

  /** The slot that a new entry of directory `d` gets: the first without an entry, or a new one behind all. */
  function SlotFor(v: View, d: nat): Loc
  {
    if d in v.dirs then
      match FindFree(v.dirs[d], 0)
      case Some(i) => Loc(d, i)
      case None => Loc(d, |v.dirs[d]|)
    else Loc(d, 0)
  }

  predicate SlotIsFree(v: View, d: nat) { d in v.dirs && FindFree(v.dirs[d], 0).Some? }

  /** How many slots every directory has. */
  ghost function SlotCounts(v: View): map<nat, nat> { map d | d in v.dirs :: |v.dirs[d]| }

  /** The slots after a free one of directory `d` was looked for: without any, a cluster is added. */
  ghost function RoomCounts(v: View, d: nat, per: nat): map<nat, nat>
    requires d in v.dirs
  {
    if SlotIsFree(v, d) then SlotCounts(v) else SlotCounts(v)[d := |v.dirs[d]| + per]
  }

  lemma SameRoom(v: View, v': View, d: nat, per: nat)
    requires v'.dirs == v.dirs && d in v.dirs
    ensures RoomCounts(v', d, per) == RoomCounts(v, d, per)
  {
  }

  lemma ExtendCounts(v: View, d: nat, n: nat)
    requires d in v.dirs
    ensures SlotCounts(ExtendDir(v, d, n)) == SlotCounts(v)[d := |v.dirs[d]| + n]
  {
  }

  lemma PutSlotCounts(v: View, l: Loc, x: DirSlot)
    requires HasSlot(v, l)
    ensures SlotCounts(PutSlot(v, l, x)) == SlotCounts(v)
  {
  }

  lemma RefreshedCounts(v: View, d: nat, later: Stamp)
    ensures SlotCounts(Refreshed(v, d, later)) == SlotCounts(v)
  {
    hide Count;
  }

  lemma AddEntryCounts(v: View, l: Loc, f: Fcb, n: nat)
    requires HasSlot(v, l) && (f.IsDir() ==> f.start !in v.dirs)
    ensures SlotCounts(AddEntry(v, l, f, NoSlots(n))) ==
      if f.IsDir() then SlotCounts(v)[f.start as nat := n] else SlotCounts(v)
  {
  }

  lemma RemoveEntryCounts(v: View, l: Loc, f: Fcb)
    requires HasSlot(v, l)
    ensures SlotCounts(RemoveEntry(v, l, f)) == SlotCounts(v) - if f.IsDir() then {f.start as nat} else {}
  {
  }

  /** All entries are at their places under their names; directories are the same ones, none has got slots. */
  ghost predicate EntriesKept(v: View, v': View)
  {
    && SlotCounts(v') == SlotCounts(v)
    && (forall l :: IsEntry(v', l) <==> IsEntry(v, l))
    && (forall l, f, f' :: EntryAt(v, l, f) && EntryAt(v', l, f') ==>
          f'.name == f.name && f'.attr == f.attr && (f.IsDir() ==> f'.start == f.start))
  }

  lemma KeptRefl(v: View)
    ensures EntriesKept(v, v)
  {
  }

  lemma UpdatedKeeps(v: View, l: Loc, f: Fcb, f': Fcb, content: seq<byte>, v': View)
    requires Updated(v, l, f', content, v') && EntryAt(v, l, f) && f.IsFile() && f'.name == f.name && f'.attr == f.attr
    ensures EntriesKept(v, v')
  {
    hide Files, Lost;
    forall l1 ensures IsEntry(v', l1) <==> IsEntry(v, l1) {
      if IsEntry(v', l1) { assert EntryAt(v', l1, v'.dirs[l1.dir][l1.idx].fcb); }
      if IsEntry(v, l1) { assert EntryAt(v', l1, if l1 == l then f' else v.dirs[l1.dir][l1.idx].fcb); }
    }
  }

  lemma WrittenKeeps(v: View, open: seq<Option<OpenFile>>, l: Loc, off: nat, data: seq<byte>, now: Stamp, v': View,
                     open': seq<Option<OpenFile>>)
    requires FileWritten(v, open, l, off, data, now, v', open') && EntryAt(v, l, FileEntry(v, l).value)
    requires FileEntry(v, l).value.IsFile()
    ensures EntriesKept(v, v')
  {
    hide Files, Updated, WriteBytes, EntriesKept, Retarget;
    UpdatedKeeps(v, l, FileEntry(v, l).value, FileEntry(v', l).value, WriteBytes(Files(v)[l], off, data), v');
  }

  lemma HandleWriteKeeps(v: View, open: seq<Option<OpenFile>>, h: nat, data: seq<byte>, now: Stamp, v': View,
                         open': seq<Option<OpenFile>>)
    requires HandleWritten(v, open, h, data, now, v', open')
    requires var l := open[h].value.loc; EntryAt(v, l, FileEntry(v, l).value) && FileEntry(v, l).value.IsFile()
    ensures EntriesKept(v, v')
  {
    hide Files, Updated, WriteBytes, EntriesKept;
    var o := open[h].value;
    UpdatedKeeps(v, o.loc, FileEntry(v, o.loc).value, FileEntry(v', o.loc).value,
      WriteBytes(Files(v)[o.loc], o.cursor, data), v');
  }

  lemma TruncatedKeeps(v: View, open: seq<Option<OpenFile>>, l: Loc, size: nat, now: Stamp, v': View,
                       open': seq<Option<OpenFile>>)
    requires FileTruncated(v, open, l, size, now, v', open') && EntryAt(v, l, FileEntry(v, l).value)
    requires FileEntry(v, l).value.IsFile()
    ensures EntriesKept(v, v')
  {
    hide Files, Updated, TruncateBytes, EntriesKept, Retarget;
    UpdatedKeeps(v, l, FileEntry(v, l).value, FileEntry(v', l).value, TruncateBytes(Files(v)[l], size), v');
  }

  /** Why an entry of that name cannot be created, unless space is what is missing. */
  function CreateCheck(v: View, d: nat, name: Str): Outcome
  {
    if Normalize(name).Failure? then Fail(InvalidName)
    else if d in v.dirs && FindName(v.dirs[d], Normalize(name).value, 0).Some? then Fail(InvalidPath)
    else Pass
  }

  function StoredName(name: Str): ShortName
  {
    if TryFrom(name).Success? then TryFrom(name).value else RawName(seq(9, _ => SPACE), seq(3, _ => SPACE))
  }

  lemma SameEntriesRefl(v: View)
    ensures SameEntries(v, v)
  {
  }

  /** A directory that has grown has a free slot behind the old ones; handles do not notice. */
  lemma ExtendHandles(v: View, d: nat, n: nat, open: seq<Option<OpenFile>>)
    requires HandlesOk(v, open) && d in v.dirs && n > 0
    ensures HandlesOk(ExtendDir(v, d, n), open)
    ensures HasSlot(ExtendDir(v, d, n), Loc(d, |v.dirs[d]|)) && !IsEntry(ExtendDir(v, d, n), Loc(d, |v.dirs[d]|))
  {
    HandlesKept(v, ExtendDir(v, d, n), open);
  }

  /** The view with one more object, zeroed, that no entry names. */
  function Leaked(v: View, c: nat, cs: nat): View { v.(blobs := v.blobs[c := Zeros(cs)]) }

  lemma UnusedBlob(cs: nat, store: Store, v: View, c: nat)
    requires Represents(cs, store, v) && c !in store
    ensures c !in v.blobs && c !in v.dirs
  {
    hide Slots;
  }

  lemma SameKeys(v: View, v': View)
    requires SameEntries(v, v')
    ensures v'.dirs.Keys == v.dirs.Keys
  {
    hide Files;
  }

  lemma NewDirStill(v: View, v': View, cs: nat, c: nat)
    requires IsNewDir(v, cs, c) && v'.blobs == v.blobs && v'.refs == v.refs && v'.dirs.Keys == v.dirs.Keys
    ensures IsNewDir(v', cs, c)
  {
    assert c !in v'.dirs.Keys;
  }

  /** A directory named `name` has appeared at `l`, with start cluster `c`. */
  ghost predicate MadeDir(v: View, l: Loc, name: Str, c: nat, now: Stamp, later: Stamp, v': View)
  {
    c < 0x1_0000 && Added(v, l, NewFcb(StoredName(name), Directory, c, now), later, v')
  }

  /** The start of an entry is the object it names. */
  lemma EntryNames(cs: nat, v: View, l: Loc, f: Fcb)
    requires Coherent(cs, v, ROOT) && EntryAt(v, l, f)
    ensures f.IsDir() || f.IsFile()
    ensures f.IsDir() ==> f.start in v.dirs && f.start != 0
    ensures f.IsFile() ==> f.start !in v.dirs && (f.start != 0 ==> f.start in v.blobs)
  {
    EntryFacts(cs, v, ROOT, l, f);
  }

  /** The entry of a directory, or what its absence is reported as. */
  function DirEntry(v: View, l: Loc): Result<Fcb>
  {
    if !HasSlot(v, l) then Failure(CorruptFs(BeyondChain))
    else
      match v.dirs[l.dir][l.idx]
      case Occupied(f) => if f.IsDir() then Success(f) else Failure(NotADirectory)
      case _ => Failure(NotFoundAt(l))
  }

  /** When a file or a directory is reported to be missing, and as what. */
  lemma EntryErrors(v: View, l: Loc)
    ensures l.dir !in v.dirs || l.idx >= |v.dirs[l.dir]| ==>
      FileEntry(v, l) == DirEntry(v, l) == Failure(CorruptFs(BeyondChain))
    ensures l.dir in v.dirs && l.idx < |v.dirs[l.dir]| && !v.dirs[l.dir][l.idx].Occupied? ==>
      FileEntry(v, l) == DirEntry(v, l) == Failure(NotFoundAt(l))
    ensures l.dir in v.dirs && l.idx < |v.dirs[l.dir]| && v.dirs[l.dir][l.idx].Occupied? ==>
      var f := v.dirs[l.dir][l.idx].fcb;
      if f.attr == 16 then FileEntry(v, l) == Failure(IsADirectory) && DirEntry(v, l) == Success(f)
      else FileEntry(v, l) == Success(f) && DirEntry(v, l) == Failure(NotADirectory)
  {
  }

  // --- a new file system --------------------------------------------------------------------------------

  /** Just a root directory without entries. */
  function EmptyView(n: nat): View { View(map[ROOT := NoSlots(n)], map[], map[], map[ROOT := 0]) }

  lemma EmptyOk(cs: nat)
    requires cs >= FCB_SIZE
    ensures Coherent(cs, EmptyView(PerCluster(cs)), ROOT) && Files(EmptyView(PerCluster(cs))) == map[]
    ensures Represents(cs, map[ROOT := Zeros(cs)], EmptyView(PerCluster(cs)))
  {
    SlotsOfZeros(cs);
    hide Slots, PerCluster, Zeros;
  }

  lemma EmptyHandles(v: View)
    ensures HandlesOk(v, seq(MAX_OPEN_FILES, _ => None))
  {
  }
}
