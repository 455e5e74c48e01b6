/**
 The file system as its users see it: a map from entries to byte strings, ten cursors and a number of free
 clusters. Every run of file operations on the disk is a run of this model, reply by reply.
 */
module Replay {
  import opened Base
  import opened Geometry
  import opened Streams
  import opened Directory
  import opened Persist
  import opened Tree
  import opened FileSystem

  datatype Cursor = Cursor(loc: Loc, pos: nat)

  datatype Model = Model(files: map<Loc, seq<byte>>, open: seq<Option<Cursor>>, free: nat)

  datatype Op =
    | ReadAt(loc: Loc, offset: usize, len: usize)
    | WriteAt(loc: Loc, offset: usize, data: seq<byte>, now: Stamp)
    | Truncate(loc: Loc, size: usize, now: Stamp)
    | Open(loc: Loc)
    | Close(handle: nat)
    | Seek(handle: nat, pos: usize)
    | Read(handle: nat, len: usize)
    | Write(handle: nat, data: seq<byte>, now: Stamp)
    | TruncateHandle(handle: nat, size: usize, now: Stamp)
    | Sync

  datatype Reply = Bytes(data: seq<byte>) | Number(n: nat) | Done | Refused(error: FsError)

  // --- the model --------------------------------------------------------------------------------------

  predicate Named(m: Model, op: Op)
  {
    (op.ReadAt? || op.WriteAt? || op.Truncate? || op.Open?) ==> op.loc in m.files
  }

  function Lookup(open: seq<Option<Cursor>>, h: nat): Option<Cursor> { if h < |open| then open[h] else None }

  predicate Busy(open: seq<Option<Cursor>>, l: Loc)
  {
    exists h :: 0 <= h < |open| && open[h].Some? && open[h].value.loc == l
  }

  function FirstUnused(open: seq<Option<Cursor>>, i: nat): (r: Option<nat>)
    requires i <= |open|
    ensures r.Some? ==> i <= r.value < |open|
    decreases |open| - i
  {
    if i == |open| then None else if open[i].None? then Some(i) else FirstUnused(open, i + 1)
  }

  /** No cursor of file `l` stays behind the new end. */
  function Clamp(open: seq<Option<Cursor>>, l: Loc, size: nat): seq<Option<Cursor>>
  {
    seq(|open|, i requires 0 <= i < |open| =>
      if open[i].Some? && open[i].value.loc == l then Some(Cursor(l, Min(open[i].value.pos, size))) else open[i])
  }

  function BytesOf(m: Model, l: Loc): seq<byte> { if l in m.files then m.files[l] else [] }

  function WriteFile(cs: nat, m: Model, l: Loc, off: nat, data: seq<byte>): (Model, Reply)
    requires cs > 0
  {
    var f := BytesOf(m, l);
    var missing := Missing(|f|, off + |data|, cs);
    if l !in m.files then (m, Refused(NotFound))
    else if off + |data| >= USIZE_LIMIT then (m, Refused(SeekOutOfBounds(off)))
    else if missing > m.free then (m, Refused(NoSpace))
    else (m.(files := m.files[l := WriteBytes(f, off, data)], free := m.free - missing), Number(|data|))
  }

  function TruncateFile(cs: nat, m: Model, l: Loc, size: nat): (Model, Reply)
    requires cs > 0
  {
    var f := BytesOf(m, l);
    var missing := Missing(|f|, size, cs);
    if l !in m.files then (m, Refused(NotFound))
    else if size >= U32_LIMIT || missing > m.free then (m, Refused(NoSpace))
    else (Model(m.files[l := TruncateBytes(f, size)], Clamp(m.open, l, size),
      m.free - missing + Missing(size, |f|, cs)), Done)
  }

  function Step(cs: nat, m: Model, op: Op): (Model, Reply)
    requires cs > 0
  {
    match op
    case ReadAt(l, off, len) =>
      (m, if l in m.files then Bytes(ReadBytes(m.files[l], off, len)) else Refused(NotFound))
    case WriteAt(l, off, data, _) => WriteFile(cs, m, l, off, data)
    case Truncate(l, size, _) => TruncateFile(cs, m, l, size)
    case Open(l) =>
      if l !in m.files then (m, Refused(NotFound))
      else if Busy(m.open, l) then (m, Refused(AlreadyOpen(l)))
      else if FirstUnused(m.open, 0).None? then (m, Refused(TooManyOpenFiles))
      else
        var h := FirstUnused(m.open, 0).value;
        (m.(open := m.open[h := Some(Cursor(l, 0))]), Number(h))
    case Sync => (m, Done)
    case _ =>
      if Lookup(m.open, op.handle).None? then (m, Refused(InvalidHandle(op.handle)))
      else StepHandle(cs, m, op, op.handle, m.open[op.handle].value)
  }

  /** Operations on handle `h`, whose cursor is `c`. */
  function StepHandle(cs: nat, m: Model, op: Op, h: nat, c: Cursor): (Model, Reply)
    requires cs > 0 && h < |m.open|
  {
    match op
    case Close(_) => (m.(open := m.open[h := None]), Done)
    case Seek(_, pos) =>
      if pos > |BytesOf(m, c.loc)| then (m, Refused(SeekOutOfBounds(pos)))
      else (m.(open := m.open[h := Some(c.(pos := pos))]), Done)
    case Read(_, len) =>
      var data := ReadBytes(BytesOf(m, c.loc), c.pos, len);
      (m.(open := m.open[h := Some(c.(pos := c.pos + |data|))]), Bytes(data))
    case Write(_, data, _) =>
      var (m', reply) := WriteFile(cs, m, c.loc, c.pos, data);
      (if reply.Number? then m'.(open := m.open[h := Some(c.(pos := c.pos + |data|))]) else m', reply)
    case TruncateHandle(_, size, _) => TruncateFile(cs, m, c.loc, size)
    case _ => (m, Done)
  }

  /** File operations neither add nor remove files. */
  lemma StepKeepsNames(cs: nat, m: Model, op: Op)
    requires cs > 0
    ensures Step(cs, m, op).0.files.Keys == m.files.Keys
  {
  }

  function StepAll(cs: nat, m: Model, ops: seq<Op>): (Model, seq<Reply>)
    requires cs > 0
  {
    if ops == [] then (m, [])
    else
      var (m0, replies) := StepAll(cs, m, ops[..|ops| - 1]);
      var (m', reply) := Step(cs, m0, ops[|ops| - 1]);
      (m', replies + [reply])
  }

  lemma {:induction false} StepAllKeepsNames(cs: nat, m: Model, ops: seq<Op>)
    requires cs > 0
    ensures StepAll(cs, m, ops).0.files.Keys == m.files.Keys
  {
    if ops != [] {
      StepAllKeepsNames(cs, m, ops[..|ops| - 1]);
      StepKeepsNames(cs, StepAll(cs, m, ops[..|ops| - 1]).0, ops[|ops| - 1]);
      hide Step;
    }
  }

  // --- the model of a mounted file system ---------------------------------------------------------------

  function Cursors(open: seq<Option<OpenFile>>): seq<Option<Cursor>>
  {
    seq(|open|, i requires 0 <= i < |open| => if open[i].Some? then Some(Cursor(open[i].value.loc,
      open[i].value.cursor)) else None)
  }

  ghost function ModelOf(v: View, open: seq<Option<OpenFile>>, free: nat): Model
  {
    Model(Files(v), Cursors(open), free)
  }

  ghost function State(fs: MyFileSystem): Model
    requires fs.Sized()
    reads fs, fs.device.inner
  {
    ModelOf(fs.view, fs.openFiles, fs.FreeCount())
  }

  lemma {:induction false} FirstUnusedIs(open: seq<Option<OpenFile>>, i: nat)
    requires i <= |open|
    ensures FirstUnused(Cursors(open), i) == FirstClosed(open, i)
    decreases |open| - i
  {
    if i < |open| {
      FirstUnusedIs(open, i + 1);
    }
  }

  lemma BusyIs(open: seq<Option<OpenFile>>, l: Loc)
    ensures Busy(Cursors(open), l) <==> IsOpen(open, l)
  {
    if IsOpen(open, l) {
      var h :| 0 <= h < |open| && open[h].Some? && open[h].value.loc == l;
      assert Cursors(open)[h].Some?;
    }
  }

  lemma CursorsPut(open: seq<Option<OpenFile>>, h: nat, o: Option<OpenFile>)
    requires h < |open|
    ensures Cursors(open[h := o]) == Cursors(open)[h := if o.Some? then Some(Cursor(o.value.loc, o.value.cursor))
      else None]
  {
  }

  lemma CursorsRetarget(v: View, open: seq<Option<OpenFile>>, l: Loc, f: Fcb, f': Fcb)
    requires HandlesOk(v, open) && EntryAt(v, l, f)
    ensures Cursors(Retarget(open, l, f', false)) == Cursors(open)
    ensures Cursors(Retarget(open, l, f', f'.size < f.size)) == Clamp(Cursors(open), l, f'.size)
  {
    forall h | 0 <= h < |open| && open[h].Some? && open[h].value.loc == l
      ensures open[h].value.cursor <= f.size
    {
      assert HandleOk(v, open[h].value);
    }
  }

  lemma OpenIsNamed(cs: nat, v: View, open: seq<Option<OpenFile>>, h: nat)
    requires Coherent(cs, v, ROOT) && HandlesOk(v, open) && HandleAt(open, h).Success?
    ensures open[h].value.loc in Files(v) && FileBytes(v, open[h].value.loc) == Files(v)[open[h].value.loc]
  {
    HandleFacts(v, open, h);
    FileEntryIff(cs, v, ROOT, open[h].value.loc);
  }

  // --- one operation on the disk is one step of the model -------------------------------------------------

  lemma WrittenIsStep(cs: nat, v: View, open: seq<Option<OpenFile>>, free: nat, l: Loc, off: nat, data: seq<byte>,
    now: Stamp,
                      v': View, open': seq<Option<OpenFile>>, free': nat)
    requires cs > 0 && HandlesOk(v, open) && FileWritten(v, open, l, off, data, now, v', open')
    requires EntryAt(v, l, FileEntry(v, l).value)
    requires off + |data| < USIZE_LIMIT && free' + Missing(|FileBytes(v, l)|, off + |data|, cs) == free
    ensures WriteFile(cs, ModelOf(v, open, free), l, off, data) == (ModelOf(v', open', free'), Number(|data|))
  {
    hide Files, Missing, WriteBytes, HandlesOk, EntryAt, Cursors, Retarget, Clamp;
    CursorsRetarget(v, open, l, FileEntry(v, l).value, FileEntry(v', l).value);
  }

  lemma TruncatedIsStep(cs: nat, v: View, open: seq<Option<OpenFile>>, free: nat, l: Loc, size: nat, now: Stamp,
                        v': View, open': seq<Option<OpenFile>>, free': nat)
    requires cs > 0 && HandlesOk(v, open) && FileTruncated(v, open, l, size, now, v', open')
    requires EntryAt(v, l, FileEntry(v, l).value)
    requires size < U32_LIMIT && Missing(|FileBytes(v, l)|, size, cs) <= free
    requires free' + Missing(|FileBytes(v, l)|, size, cs) == free + Missing(size, |FileBytes(v, l)|, cs)
    ensures TruncateFile(cs, ModelOf(v, open, free), l, size) == (ModelOf(v', open', free'), Done)
  {
    hide Files, Missing, TruncateBytes, HandlesOk, EntryAt, Cursors, Retarget, Clamp;
    CursorsRetarget(v, open, l, FileEntry(v, l).value, FileEntry(v', l).value);
  }

  /** Truncating a file to the size it has changes nothing. */
  lemma IdleTruncate(cs: nat, v: View, open: seq<Option<OpenFile>>, free: nat, l: Loc, f: Fcb)
    requires Coherent(cs, v, ROOT) && HandlesOk(v, open) && EntryAt(v, l, f) && f.IsFile()
    ensures cs > 0 && l in Files(v) && |Files(v)[l]| == f.size
    ensures TruncateFile(cs, ModelOf(v, open, free), l, f.size) == (ModelOf(v, open, free), Done)
  {
    ObjectFacts(cs, v, ROOT, l, f);
    MissingNone(f.size, f.size, cs);
    IdleClamp(v, open, l, f);
    hide Coherent, Files, HandlesOk, Cursors, Clamp, Missing, EntryAt, ZeroFrom, Whole, ObjectOf, FileBytes;
    assert TruncateBytes(Files(v)[l], f.size) == Files(v)[l];
    assert Files(v)[l := Files(v)[l]] == Files(v);
  }

  lemma IdleClamp(v: View, open: seq<Option<OpenFile>>, l: Loc, f: Fcb)
    requires HandlesOk(v, open) && EntryAt(v, l, f)
    ensures Clamp(Cursors(open), l, f.size) == Cursors(open)
  {
    forall h | 0 <= h < |open| && open[h].Some? && open[h].value.loc == l
      ensures open[h].value.cursor <= f.size
    {
      assert HandleOk(v, open[h].value);
    }
  }

  method PerformReadAt(fs: MyFileSystem, l: Loc, off: usize, len: usize) returns (reply: Reply)
    requires fs.Intact() && l in Files(fs.view)
    ensures (State(fs), reply) == Step(fs.cs, State(fs), ReadAt(l, off, len))
  {
    hide Coherent, HandlesOk, Files, Mountable;
    FileEntryIff(fs.cs, fs.view, ROOT, l);
    FileFacts(fs.cs, fs.view, l);
    var r := fs.ReadAt(l, off, len);
    reply := Bytes(r.value);
  }

  lemma FileFacts(cs: nat, v: View, l: Loc)
    requires Coherent(cs, v, ROOT) && l in Files(v)
    ensures cs > 0 && l.dir in v.dirs && FileEntry(v, l).Success? && EntryAt(v, l, FileEntry(v, l).value)
    ensures FileBytes(v, l) == Files(v)[l] && FileEntry(v, l).value.IsFile()
      && |Files(v)[l]| == FileEntry(v, l).value.size
  {
    FileEntryIff(cs, v, ROOT, l);
    FileAt(cs, v, ROOT, l, FileEntry(v, l).value);
  }

  method PerformWriteAt(fs: MyFileSystem, l: Loc, off: usize, data: seq<byte>, now: Stamp) returns (reply: Reply)
    requires fs.Intact() && l in Files(fs.view)
    modifies fs, fs.device.inner
    ensures fs.Steady() || (fs.Faulted() && reply == Refused(DeviceFault))
    ensures fs.Steady() ==>
      && fs.Intact() && EntriesKept(old(fs.view), fs.view)
      && (State(fs), reply) == WriteFile(fs.cs, old(State(fs)), l, off, data)
  {
    hide MyFileSystem.Ready, Coherent, HandlesOk, Files, Mountable, FileWritten, Missing, Cursors, EntriesKept;
    KeptRefl(fs.view);
    FsPositive(fs);
    ghost var v, open, free := fs.view, fs.openFiles, fs.FreeCount();
    FileFacts(fs.cs, v, l);
    var r := fs.WriteAt(l, off, data, now);
    if fs.Steady() { FsPositive(fs); }
    if r.Success? {
      WrittenIsStep(fs.cs, v, open, free, l, off, data, now, fs.view, fs.openFiles, fs.FreeCount());
      WrittenKeeps(v, open, l, off, data, now, fs.view, fs.openFiles);
      return Number(r.value);
    }
    return Refused(r.error);
  }

  method PerformTruncate(fs: MyFileSystem, l: Loc, size: usize, now: Stamp) returns (reply: Reply)
    requires fs.Intact() && l in Files(fs.view)
    modifies fs, fs.device.inner
    ensures fs.Steady() || (fs.Faulted() && reply == Refused(DeviceFault))
    ensures fs.Steady() ==>
      && fs.Intact() && EntriesKept(old(fs.view), fs.view)
      && (State(fs), reply) == TruncateFile(fs.cs, old(State(fs)), l, size)
  {
    hide MyFileSystem.Ready, Coherent, HandlesOk, Files, Mountable, FileTruncated, Missing, Cursors, EntriesKept;
    KeptRefl(fs.view);
    FsPositive(fs);
    ghost var v, open, free := fs.view, fs.openFiles, fs.FreeCount();
    FileFacts(fs.cs, v, l);
    IdleTruncate(fs.cs, v, open, free, l, FileEntry(v, l).value);
    var r := fs.Truncate(l, size, now);
    if fs.Steady() { FsPositive(fs); }
    if r.Fail? {
      return Refused(r.error);
    }
    if size != |FileBytes(v, l)| {
      TruncatedIsStep(fs.cs, v, open, free, l, size, now, fs.view, fs.openFiles, fs.FreeCount());
      TruncatedKeeps(v, open, l, size, now, fs.view, fs.openFiles);
    }
    return Done;
  }

  method PerformOpen(fs: MyFileSystem, l: Loc) returns (reply: Reply)
    requires fs.Intact() && l in Files(fs.view)
    modifies fs`openFiles
    ensures fs.Intact() && (State(fs), reply) == Step(fs.cs, old(State(fs)), Open(l))
  {
    hide MyFileSystem.Ready, Coherent, HandlesOk, Files, Mountable;
    ghost var open := fs.openFiles;
    FileFacts(fs.cs, fs.view, l);
    BusyIs(open, l);
    FirstUnusedIs(open, 0);
    var r := fs.Open(l);
    if r.Failure? {
      return Refused(r.error);
    }
    CursorsPut(open, r.value, fs.openFiles[r.value]);
    return Number(r.value);
  }

  lemma LookupIs(open: seq<Option<OpenFile>>, h: nat)
    ensures Lookup(Cursors(open), h) ==
      match HandleAt(open, h) case Success(o) => Some(Cursor(o.loc, o.cursor)) case Failure(_) => None
    ensures HandleAt(open, h).Failure? ==> HandleAt(open, h).error == InvalidHandle(h)
    ensures HandleAt(open, h).Success? ==> h < |open| && open[h].Some? && h < |Cursors(open)|
  {
  }

  method PerformClose(fs: MyFileSystem, h: nat) returns (reply: Reply)
    requires fs.Intact()
    modifies fs`openFiles
    ensures fs.Intact() && (State(fs), reply) == Step(fs.cs, old(State(fs)), Close(h))
  {
    hide MyFileSystem.Ready, Coherent, HandlesOk, Files, Mountable;
    LookupIs(fs.openFiles, h);
    if h < |fs.openFiles| { CursorsPut(fs.openFiles, h, None); }
    PositiveCluster(fs.cs, fs.view);
    var r := fs.CloseHandle(h);
    return if r.Fail? then Refused(r.error) else Done;
  }

  lemma PositiveCluster(cs: nat, v: View)
    requires Coherent(cs, v, ROOT)
    ensures cs > 0
  {
  }

  method PerformSeek(fs: MyFileSystem, h: nat, pos: usize) returns (reply: Reply)
    requires fs.Intact()
    modifies fs`openFiles
    ensures fs.Intact() && (State(fs), reply) == Step(fs.cs, old(State(fs)), Seek(h, pos))
  {
    hide MyFileSystem.Ready, Coherent, HandlesOk, Files, Mountable, Cursors;
    ghost var open := fs.openFiles;
    LookupIs(open, h);
    PositiveCluster(fs.cs, fs.view);
    if h < |open| && open[h].Some? {
      OpenIsNamed(fs.cs, fs.view, open, h);
      CursorsPut(open, h, Some(open[h].value.(cursor := pos)));
    }
    var r := fs.SeekHandle(h, pos);
    return if r.Fail? then Refused(r.error) else Done;
  }

  method PerformRead(fs: MyFileSystem, h: nat, len: usize) returns (reply: Reply)
    requires fs.Intact()
    modifies fs`openFiles
    ensures fs.Intact() && (State(fs), reply) == Step(fs.cs, old(State(fs)), Read(h, len))
  {
    hide MyFileSystem.Ready, Coherent, HandlesOk, Files, Mountable, Cursors, ReadBytes;
    ghost var open := fs.openFiles;
    LookupIs(open, h);
    PositiveCluster(fs.cs, fs.view);
    if h < |open| && open[h].Some? { OpenIsNamed(fs.cs, fs.view, open, h); }
    var r := fs.ReadHandle(h, len);
    if r.Failure? {
      return Refused(r.error);
    }
    CursorsPut(open, h, fs.openFiles[h]);
    return Bytes(r.value);
  }

  lemma HandleWrittenIsStep(cs: nat, v: View, open: seq<Option<OpenFile>>, free: nat, h: nat, data: seq<byte>,
    now: Stamp,
                            v': View, open': seq<Option<OpenFile>>, free': nat)
    requires cs > 0 && HandleWritten(v, open, h, data, now, v', open')
    requires var o := open[h].value;
      o.cursor + |data| < USIZE_LIMIT && free' + Missing(|FileBytes(v, o.loc)|, o.cursor + |data|, cs) == free
    ensures Step(cs, ModelOf(v, open, free), Write(h, data, now)) == (ModelOf(v', open', free'), Number(|data|))
  {
    hide Files, Missing, WriteBytes, Cursors;
    var o := open[h].value;
    LookupIs(open, h);
    CursorsPut(open, h, open'[h]);
  }

  method PerformWrite(fs: MyFileSystem, h: nat, data: seq<byte>, now: Stamp) returns (reply: Reply)
    requires fs.Intact()
    modifies fs, fs.device.inner
    ensures fs.Steady() || (fs.Faulted() && reply == Refused(DeviceFault))
    ensures fs.Steady() ==>
      && fs.Intact() && EntriesKept(old(fs.view), fs.view)
      && (State(fs), reply) == Step(fs.cs, old(State(fs)), Write(h, data, now))
  {
    hide MyFileSystem.Ready, Coherent, HandlesOk, Files, Mountable, HandleWritten, Missing, Cursors, EntriesKept;
    KeptRefl(fs.view);
    FsPositive(fs);
    ghost var v, open, free := fs.view, fs.openFiles, fs.FreeCount();
    LookupIs(open, h);
    PositiveCluster(fs.cs, fs.view);
    if h < |open| && open[h].Some? { OpenIsNamed(fs.cs, fs.view, open, h); }
    var r := fs.WriteHandle(h, data, now);
    if fs.Steady() { FsPositive(fs); }
    if r.Success? {
      HandleWrittenIsStep(fs.cs, v, open, free, h, data, now, fs.view, fs.openFiles, fs.FreeCount());
      FileFacts(fs.cs, v, open[h].value.loc);
      HandleWriteKeeps(v, open, h, data, now, fs.view, fs.openFiles);
      return Number(r.value);
    }
    return Refused(r.error);
  }

  method PerformTruncateHandle(fs: MyFileSystem, h: nat, size: usize, now: Stamp) returns (reply: Reply)
    requires fs.Intact()
    modifies fs, fs.device.inner
    ensures fs.Steady() || (fs.Faulted() && reply == Refused(DeviceFault))
    ensures fs.Steady() ==>
      && fs.Intact() && EntriesKept(old(fs.view), fs.view)
      && (State(fs), reply) == Step(fs.cs, old(State(fs)), TruncateHandle(h, size, now))
  {
    hide MyFileSystem.Ready, Coherent, HandlesOk, Files, Mountable, FileTruncated, Missing, Cursors, EntriesKept;
    KeptRefl(fs.view);
    FsPositive(fs);
    ghost var v, open, free := fs.view, fs.openFiles, fs.FreeCount();
    LookupIs(open, h);
    PositiveCluster(fs.cs, fs.view);
    if h < |open| && open[h].Some? {
      OpenIsNamed(fs.cs, v, open, h);
      FileFacts(fs.cs, v, open[h].value.loc);
      IdleTruncate(fs.cs, v, open, free, open[h].value.loc, FileEntry(v, open[h].value.loc).value);
    }
    var r := fs.TruncateHandle(h, size, now);
    if fs.Steady() { FsPositive(fs); }
    if r.Fail? {
      return Refused(r.error);
    }
    if size != |FileBytes(v, open[h].value.loc)| {
      TruncatedIsStep(fs.cs, v, open, free, open[h].value.loc, size, now, fs.view, fs.openFiles, fs.FreeCount());
      TruncatedKeeps(v, open, open[h].value.loc, size, now, fs.view, fs.openFiles);
    }
    return Done;
  }

  /** Performs one operation on the mounted file system. */
  method Perform(fs: MyFileSystem, op: Op) returns (reply: Reply)
    requires fs.Intact() && Named(State(fs), op)
    modifies fs, fs.device.inner
    ensures fs.Steady() || (fs.Faulted() && reply == Refused(DeviceFault))
    ensures fs.Steady() ==>
      && fs.Intact() && EntriesKept(old(fs.view), fs.view)
      && (State(fs), reply) == Step(fs.cs, old(State(fs)), op)
  {
    hide MyFileSystem.Ready, Coherent, HandlesOk, Files, Mountable, Cursors, EntriesKept;
    KeptRefl(fs.view);
    PositiveCluster(fs.cs, fs.view);
    match op {
      case ReadAt(l, off, len) => reply := PerformReadAt(fs, l, off, len);
      case WriteAt(l, off, data, now) => reply := PerformWriteAt(fs, l, off, data, now);
      case Truncate(l, size, now) => reply := PerformTruncate(fs, l, size, now);
      case Open(l) => reply := PerformOpen(fs, l);
      case Close(h) => reply := PerformClose(fs, h);
      case Seek(h, pos) => reply := PerformSeek(fs, h, pos);
      case Read(h, len) => reply := PerformRead(fs, h, len);
      case Write(h, data, now) => reply := PerformWrite(fs, h, data, now);
      case TruncateHandle(h, size, now) => reply := PerformTruncateHandle(fs, h, size, now);
      case Sync =>
        var r := fs.Sync();
        reply := if r.Fail? then Refused(r.error) else Done;
    }
  }

  /**
   Every run of file operations, on any mix of files, answers as the model does, up to the first device fault:
   the operation that meets it reports it, and the run stops.
   */
  method Run(fs: MyFileSystem, ops: seq<Op>) returns (replies: seq<Reply>)
    requires fs.Intact() && forall i :: 0 <= i < |ops| ==> Named(State(fs), ops[i])
    modifies fs, fs.device.inner
    ensures fs.cs > 0 && |replies| <= |ops| && (fs.Steady() || fs.Faulted())
    ensures fs.Steady() ==> fs.Intact() && (State(fs), replies) == StepAll(fs.cs, old(State(fs)), ops)
    ensures fs.Faulted() ==>
      replies != []
      && replies == StepAll(fs.cs, old(State(fs)), ops[..|replies| - 1]).1 + [Refused(DeviceFault)]
  {
    hide MyFileSystem.Intact, Step;
    FsPositive(fs);
    replies := [];
    for i := 0 to |ops|
      invariant fs.Steady() && fs.Intact() && fs.Sized()
      invariant (State(fs), replies) == StepAll(fs.cs, old(State(fs)), ops[..i]) && |replies| == i
    {
      StepAllKeepsNames(fs.cs, old(State(fs)), ops[..i]);
      assert ops[..i + 1][..i] == ops[..i];
      var reply := Perform(fs, ops[i]);
      replies := replies + [reply];
      if reply == Refused(DeviceFault) {
        FaultEndsStep(fs.cs, StepAll(fs.cs, old(State(fs)), ops[..i]).0, ops[i]);
        return;
      }
      FsPositive(fs);
    }
    assert ops[..|ops|] == ops;
  }

  /** The model itself never reports a device fault. */
  lemma FaultEndsStep(cs: nat, m: Model, op: Op)
    requires cs > 0
    ensures Step(cs, m, op).1 != Refused(DeviceFault)
  {
  }

  lemma FsPositive(fs: MyFileSystem)
    requires fs.Intact()
    ensures fs.cs > 0 && fs.Sized()
  {
  }

  // --- what the model means ---------------------------------------------------------------------------------

  /** After a write the data stands at its offset, a gap before it is zero, every other byte is as before. */
  lemma WriteMeaning(s: seq<byte>, off: nat, data: seq<byte>)
    ensures var w := WriteBytes(s, off, data);
      && |w| == Max(|s|, off + |data|)
      && (forall i :: 0 <= i < |w| ==>
            w[i] == if off <= i < off + |data| then data[i - off] else if i < |s| then s[i] else 0)
      && ReadBytes(w, off, |data|) == data
  {
    var w := WriteBytes(s, off, data);
    assert off + |data| <= |w|;
    assert data != [] ==> ReadBytes(w, off, |data|) == w[off..off + |data|];
  }

  /** A read gives the bytes from the offset on, as many as are asked for or there are. */
  lemma ReadMeaning(s: seq<byte>, off: nat, len: nat)
    ensures var r := ReadBytes(s, off, len);
      && |r| == (if off >= |s| then 0 else if len <= |s| - off then len else |s| - off)
      && forall i :: 0 <= i < |r| ==> r[i] == s[off + i]
  {
  }

  /** Bytes that a file loses to a truncation never come back: growing again shows zeros. */
  lemma TruncateMeaning(s: seq<byte>, n: nat, m: nat)
    ensures |TruncateBytes(s, n)| == n
    ensures forall i :: 0 <= i < n ==> TruncateBytes(s, n)[i] == if i < |s| then s[i] else 0
    ensures n <= m ==> TruncateBytes(TruncateBytes(s, n), m) == if n <= |s| then s[..n] + Zeros(m - n)
      else s + Zeros(m - |s|)
    ensures m <= n ==> TruncateBytes(TruncateBytes(s, n), m) == TruncateBytes(s, m)
  {
  }

  /** The file that an operation is about. */
  function Target(m: Model, op: Op): Option<Loc>
  {
    match op
    case ReadAt(l, _, _) => Some(l)
    case WriteAt(l, _, _, _) => Some(l)
    case Truncate(l, _, _) => Some(l)
    case Open(l) => Some(l)
    case Sync => None
    case _ => if Lookup(m.open, op.handle).Some? then Some(m.open[op.handle].value.loc) else None
  }

  predicate Reads(op: Op) { op.ReadAt? || op.Read? }

  /** No operation changes a file it is not about, and a refused or a reading one changes none at all. */
  lemma StepOthers(cs: nat, m: Model, op: Op)
    requires cs > 0
    ensures var (m', reply) := Step(cs, m, op);
      && (forall l :: l in m.files && Target(m, op) != Some(l) ==> m'.files[l] == m.files[l])
      && (reply.Refused? ==> m' == m)
      && (Reads(op) ==> m'.files == m.files && m'.free == m.free)
  {
    StepKeepsNames(cs, m, op);
    hide WriteBytes, TruncateBytes, ReadBytes, Missing;
  }
}
