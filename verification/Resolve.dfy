/**
 Paths into the tree: what the shell's paths resolve to, that entries and canonical paths correspond one to
 one, and which paths creating and removing entries adds and takes away.
 */
module Resolve {
  import opened Base
  import opened Geometry
  import opened Text
  import opened Names
  import opened Directory
  import opened FatChains
  import opened Tree
  import opened Namespace
  import opened Paths
  import opened FileSystem

  datatype Target = RootDir | Entry(loc: Loc, fcb: Fcb, path: Str)

  /** What looking a name up in a directory gives. */
  function Find(v: View, d: nat, name: Str): Result<(Loc, Fcb)>
  {
    if Normalize(name).Failure? then Failure(InvalidName)
    else if d !in v.dirs then Failure(NotFound)
    else
      match FindName(v.dirs[d], Normalize(name).value, 0)
      case Some(i) => Success((Loc(d, i), v.dirs[d][i].fcb))
      case None => Failure(NotFound)
  }

  /** The entry that a list of components leads to from the root. */
  function Follow(v: View, parts: seq<Str>): Result<(Loc, Fcb)>
    requires parts != []
    decreases |parts|
  {
    var last := parts[|parts| - 1];
    if |parts| == 1 then Find(v, ROOT, last)
    else
      match Follow(v, parts[..|parts| - 1])
      case Failure(error) => Failure(error)
      case Success(found) => Find(v, found.1.start, last)
  }

  function Resolved(v: View, cwd: Str, raw: Str): Result<Target>
  {
    if raw == [] then Failure(InvalidPath)
    else if StackOf(cwd, raw) == [] then Success(RootDir)
    else
      match Follow(v, StackOf(cwd, raw))
      case Failure(error) => Failure(error)
      case Success(found) => Success(Entry(found.0, found.1, PathOf(StackOf(cwd, raw))))
  }

  /** The components `p` lead to the entry at `l`. */
  predicate Reaches(v: View, p: seq<Str>, l: Loc)
  {
    p != [] && Components(p) && Follow(v, p).Success? && Follow(v, p).value.0 == l
  }

  /** The components `p` lead to directory `d`. */
  predicate Arrives(v: View, p: seq<Str>, d: nat)
  {
    if p == [] then d == ROOT else Components(p) && Follow(v, p).Success? && Follow(v, p).value.1.start == d
  }

  // --- one entry, one path -------------------------------------------------------------------------

  lemma FindFacts(v: View, d: nat, name: Str)
    requires Find(v, d, name).Success?
    ensures var found := Find(v, d, name).value;
      EntryAt(v, found.0, found.1) && found.0.dir == d && d in v.dirs && ToStr(found.1.name) == ToUpper(name)
  {
    hide ToStr, TryFrom, ToUpper;
  }

  lemma FindEntry(v: View, l: Loc, f: Fcb)
    requires EntryAt(v, l, f) && HasNames(v, l.dir) && Printable(f.name)
    ensures Find(v, l.dir, ToStr(f.name)) == Success((l, f))
  {
    hide ToStr, Normalize, HasNames, Printable;
    PrintIsKey(f.name);
    LookupIsMembership(v, l.dir, ToStr(f.name));
  }

  lemma PrintIsComponent(n: ShortName)
    requires Printable(n)
    ensures Component(ToStr(n))
  {
    hide ToStr, Printable, ToUpper;
    PrintIsKey(n);
  }

  /** The last component is the name of the entry, and the others lead to its directory. */
  lemma FollowFacts(v: View, p: seq<Str>, l: Loc)
    requires Reaches(v, p, l)
    ensures EntryAt(v, l, Follow(v, p).value.1) && ToStr(Follow(v, p).value.1.name) == p[|p| - 1]
    ensures Arrives(v, p[..|p| - 1], l.dir)
  {
    hide ToStr, Find;
    assert Component(p[|p| - 1]);
    assert Find(v, if |p| == 1 then ROOT else Follow(v, p[..|p| - 1]).value.1.start, p[|p| - 1]).Success?;
    FindFacts(v, if |p| == 1 then ROOT else Follow(v, p[..|p| - 1]).value.1.start, p[|p| - 1]);
  }

  /** Conversely, a path to the directory and the name of an entry are a path to the entry. */
  lemma FollowEntry(v: View, p: seq<Str>, l: Loc, f: Fcb)
    requires Arrives(v, p, l.dir) && EntryAt(v, l, f) && NamesOk(v)
    ensures Follow(v, p + [ToStr(f.name)]) == Success((l, f)) && Reaches(v, p + [ToStr(f.name)], l)
  {
    hide ToStr, Find, HasNames, Printable, Component;
    PrintIsComponent(f.name);
    FindEntry(v, l, f);
    var q := p + [ToStr(f.name)];
    assert q[..|q| - 1] == p;
  }

  /** An entry whose object is a directory is a directory's entry, and not the root's. */
  lemma StartIsDir(cs: nat, v: View, l: Loc, f: Fcb)
    requires Coherent(cs, v, ROOT) && EntryAt(v, l, f)
    ensures f.start in v.dirs <==> f.IsDir()
    ensures f.start in v.dirs ==> f.start != ROOT && f.start != 0
  {
    EntryFacts(cs, v, ROOT, l, f);
    hide EntriesOk, RefsOk;
  }

  /** No two paths lead to one entry. */
  lemma {:induction false} OnePath(cs: nat, v: View, p: seq<Str>, q: seq<Str>, l: Loc)
    requires Coherent(cs, v, ROOT) && Reaches(v, p, l) && Reaches(v, q, l)
    ensures p == q
    decreases |p|
  {
    hide Coherent, Follow, ToStr;
    FollowFacts(v, p, l);
    FollowFacts(v, q, l);
    var p0, q0 := p[..|p| - 1], q[..|q| - 1];
    if p0 != [] { ArrivesBelow(cs, v, p0, l.dir); }
    if q0 != [] { ArrivesBelow(cs, v, q0, l.dir); }
    if p0 != [] && q0 != [] {
      var a, b := Follow(v, p0).value, Follow(v, q0).value;
      FollowFacts(v, p0, a.0);
      FollowFacts(v, q0, b.0);
      EntriesDistinct(cs, v, ROOT, a.0, a.1, b.0, b.1);
      OnePath(cs, v, p0, q0, a.0);
    }
    assert p == p0 + [p[|p| - 1]] && q == q0 + [q[|q| - 1]];
  }

  lemma ArrivesBelow(cs: nat, v: View, p: seq<Str>, d: nat)
    requires Coherent(cs, v, ROOT) && p != [] && Arrives(v, p, d) && d in v.dirs
    ensures d != ROOT && d != 0
  {
    hide Coherent, Follow, ToStr;
    FollowFacts(v, p, Follow(v, p).value.0);
    StartIsDir(cs, v, Follow(v, p).value.0, Follow(v, p).value.1);
  }

  /** Every entry has a path, one component for each level. */
  lemma {:induction false} PathTo(cs: nat, v: View, l: Loc, f: Fcb) returns (p: seq<Str>)
    requires Coherent(cs, v, ROOT) && NamesOk(v) && EntryAt(v, l, f) && l.dir in v.depth
    ensures Follow(v, p + [ToStr(f.name)]) == Success((l, f)) && Reaches(v, p + [ToStr(f.name)], l)
    ensures |p| == v.depth[l.dir]
    decreases v.depth[l.dir]
  {
    hide Coherent, Follow, ToStr, NamesOk;
    if l.dir == ROOT {
      p := [];
      RootDepth(cs, v);
    } else {
      var l0, f0 := EntryOfDir(cs, v, l.dir);
      var p0 := PathTo(cs, v, l0, f0);
      p := p0 + [ToStr(f0.name)];
    }
    FollowEntry(v, p, l, f);
  }

  lemma RootDepth(cs: nat, v: View)
    requires Coherent(cs, v, ROOT)
    ensures ROOT in v.depth && v.depth[ROOT] == 0
  {
  }

  lemma EntryOfDir(cs: nat, v: View, d: nat) returns (l: Loc, f: Fcb)
    requires Coherent(cs, v, ROOT) && d in v.depth && d != ROOT
    ensures EntryAt(v, l, f) && f.start == d
    ensures l.dir in v.depth && v.depth[d] == v.depth[l.dir] + 1
  {
    l := v.refs[d];
    assert RefOk(v, d);
    f := v.dirs[l.dir][l.idx].fcb;
    EntryFacts(cs, v, ROOT, l, f);
    StartIsDir(cs, v, l, f);
  }

  lemma DirDepth(cs: nat, v: View, l: Loc)
    requires Coherent(cs, v, ROOT) && HasSlot(v, l)
    ensures l.dir in v.depth
  {
  }

  /** Canonical paths and entries correspond one to one. */
  lemma PathsAreEntries(cs: nat, v: View, l: Loc)
    requires Coherent(cs, v, ROOT) && NamesOk(v)
    ensures IsEntry(v, l) <==> exists p :: Reaches(v, p, l)
    ensures forall p, q :: Reaches(v, p, l) && Reaches(v, q, l) ==> p == q
  {
    hide Coherent, NamesOk, Reaches, ToStr;
    if IsEntry(v, l) {
      DirDepth(cs, v, l);
      var p := PathTo(cs, v, l, v.dirs[l.dir][l.idx].fcb);
    }
    forall p | Reaches(v, p, l) ensures IsEntry(v, l) { FollowFacts(v, p, l); }
    forall p, q | Reaches(v, p, l) && Reaches(v, q, l) ensures p == q { OnePath(cs, v, p, q, l); }
  }

  /** Wherever one stands, the canonical path of an entry resolves to that entry. */
  lemma FromAnywhere(v: View, cwd: Str, p: seq<Str>, l: Loc)
    requires Reaches(v, p, l)
    ensures Resolved(v, cwd, PathOf(p)) == Success(Entry(l, Follow(v, p).value.1, PathOf(p)))
  {
    hide Follow, Component, Split, PushAll;
    hide Join;
    PathIsAbsolute(p);
    ComponentsOf(p);
  }

  /** From a directory ".." (46, 46) resolves to the directory that its entry lies in, from the root to the root. */
  lemma UpFromDirectory(v: View, p: seq<Str>, l: Loc)
    requires Reaches(v, p, l)
    ensures match Resolved(v, PathOf(p), [46, 46])
      case Success(RootDir) => l.dir == ROOT
      case Success(Entry(l0, f0, path)) => EntryAt(v, l0, f0) && f0.start == l.dir && path == PathOf(p[..|p| - 1])
      case Failure(_) => false
    ensures Resolved(v, [47], [46, 46]) == Success(RootDir)
  {
    hide Follow, StackOf, Joined, Join, FromCwd, Component, ToStr;
    UpStack(p);
    UpStack([]);
    FollowFacts(v, p, l);
    var p0 := p[..|p| - 1];
    if p0 != [] { FollowFacts(v, p0, Follow(v, p0).value.0); }
  }

  lemma UpStack(p: seq<Str>)
    requires Components(p)
    ensures StackOf(PathOf(p), [46, 46]) == if p == [] then [] else p[..|p| - 1]
  {
    hide StackOf, PathOf, FromCwd;
    var up := if p == [] then [] else p[..|p| - 1];
    FromDirectory(p, [46, 46]);
    StackIsClean(PathOf(p), [46, 46]);
    StackOfPath([], StackOf(PathOf(p), [46, 46]));
    StackOfPath([], up);
  }

  /** Once one has gone to `a`, a relative path resolves to what `a/b` resolved to from where one was. */
  lemma ResolvedFromThere(v: View, cwd: Str, a: Str, b: Str)
    requires Canonical(cwd) && a != [] && b != [] && !Absolute(b)
    ensures Resolved(v, FromCwd(cwd, a).value, b) == Resolved(v, cwd, a + [SLASH] + b)
  {
    hide Follow, StackOf, FromCwd, Absolute, Canonical, Components;
    Composes(cwd, a, b);
    var there := FromCwd(cwd, a).value;
    StackIsClean(there, b);
    StackIsClean(cwd, a + [SLASH] + b);
    StackOfPath(cwd, StackOf(there, b));
    StackOfPath(cwd, StackOf(cwd, a + [SLASH] + b));
  }

  // --- creating and removing entries, seen by paths -------------------------------------------------

  /**
   Every entry but those at `gone` has kept its place and name, and its object if that is a directory; the
   objects of entries at `gone` are no directories afterwards.
   */
  ghost predicate Carried(v: View, v': View, gone: set<Loc>)
  {
    forall l, f :: EntryAt(v, l, f) ==> if l in gone then f.start !in v'.dirs else KeptAt(v', l, f)
  }

  predicate KeptAt(v: View, l: Loc, f: Fcb)
  {
    && IsEntry(v, l)
    && var f' := v.dirs[l.dir][l.idx].fcb;
      f'.name == f.name && (f.start in v.dirs ==> f'.start == f.start)
  }

  /** Paths to entries that have stayed lead to them still. */
  lemma {:induction false} StillReached(v: View, v': View, gone: set<Loc>, p: seq<Str>, l: Loc)
    requires Carried(v, v', gone) && NamesOk(v') && Reaches(v, p, l) && l !in gone
    ensures Reaches(v', p, l)
    decreases |p|
  {
    hide Follow, ToStr, NamesOk;
    FollowFacts(v, p, l);
    var p0 := p[..|p| - 1];
    if p0 != [] {
      var l0 := Follow(v, p0).value.0;
      FollowFacts(v, p0, l0);
      StillReached(v, v', gone, p0, l0);
      FollowFacts(v', p0, l0);
    }
    FollowEntry(v', p0, l, v'.dirs[l.dir][l.idx].fcb);
    assert p == p0 + [p[|p| - 1]];
  }

  lemma AddedCarries(cs: nat, v: View, l: Loc, f: Fcb, later: Stamp, v': View)
    requires Added(v, l, f, later, v')
    ensures Carried(v, v', {})
  {
    hide Files, DirBytes;
  }

  /** An entry that has just been created names no directory of before. */
  lemma NewIsNoDir(cs: nat, v: View, l: Loc, f: Fcb, later: Stamp, v': View)
    requires Added(v, l, f, later, v') && Coherent(cs, v, ROOT) && Coherent(cs, v', ROOT)
    ensures f.start !in v.dirs
  {
    hide Files, DirBytes, Coherent;
    if f.start in v.dirs {
      StartIsDir(cs, v', l, f);
      DirHasDepth(cs, v, f.start);
      var l0, f0 := EntryOfDir(cs, v, f.start);
      EntriesDistinct(cs, v', ROOT, l, f, l0, Aged(f0, l.dir, DirBytes(v', l.dir), later));
    }
  }

  lemma DirHasDepth(cs: nat, v: View, d: nat)
    requires Coherent(cs, v, ROOT) && d in v.dirs
    ensures d in v.depth
  {
  }

  lemma AddedCarriesBack(cs: nat, v: View, l: Loc, f: Fcb, later: Stamp, v': View)
    requires Added(v, l, f, later, v') && Coherent(cs, v, ROOT) && Coherent(cs, v', ROOT)
    ensures Carried(v', v, {l})
  {
    hide Files, DirBytes, Coherent;
    NewIsNoDir(cs, v, l, f, later, v');
    assert forall l1 :: IsEntry(v', l1) && l1 != l ==> IsEntry(v, l1) && EntryAt(v, l1, v.dirs[l1.dir][l1.idx].fcb);
  }

  /** Creating an entry adds its path and no other, and moves no entry. */
  lemma CreatedPaths(cs: nat, v: View, l: Loc, f: Fcb, later: Stamp, v': View, p: seq<Str>)
    requires Added(v, l, f, later, v') && Coherent(cs, v, ROOT) && Coherent(cs, v', ROOT)
    requires NamesOk(v) && NamesOk(v') && Arrives(v, p, l.dir) && l.dir in v.dirs
    ensures forall q, l1 :: Reaches(v', q, l1) <==> Reaches(v, q, l1) || (q == p + [ToStr(f.name)] && l1 == l)
    ensures Follow(v', p + [ToStr(f.name)]) == Success((l, f))
  {
    hide Added, Coherent, NamesOk, Reaches, Carried, ToStr;
    AddedCarries(cs, v, l, f, later, v');
    AddedCarriesBack(cs, v, l, f, later, v');
    AddedEntry(v, l, f, later, v');
    ArrivesStill(cs, v, v', p, l.dir);
    FollowEntry(v', p, l, f);
    forall q, l1 | Reaches(v, q, l1) ensures Reaches(v', q, l1) { StillReached(v, v', {}, q, l1); }
    forall q, l1 | Reaches(v', q, l1) && l1 != l ensures Reaches(v, q, l1) { StillReached(v', v, {l}, q, l1); }
    forall q | Reaches(v', q, l) ensures q == p + [ToStr(f.name)] {
      OnePath(cs, v', q, p + [ToStr(f.name)], l);
    }
  }

  lemma ArrivesStill(cs: nat, v: View, v': View, p: seq<Str>, d: nat)
    requires Carried(v, v', {}) && NamesOk(v') && Arrives(v, p, d) && d in v'.dirs
    ensures Arrives(v', p, d)
  {
    hide Follow, NamesOk, ToStr;
    if p != [] {
      var l0 := Follow(v, p).value.0;
      FollowFacts(v, p, l0);
      StillReached(v, v', {}, p, l0);
      FollowFacts(v', p, l0);
    }
  }

  lemma RemovedCarries(cs: nat, v: View, l: Loc, f: Fcb, later: Stamp, v': View)
    requires Removed(v, l, f, later, v') && Coherent(cs, v, ROOT)
    ensures Carried(v, v', {l}) && Carried(v', v, {})
  {
    hide Files, DirBytes, Coherent;
    StartIsDir(cs, v, l, f);
    assert forall l1 :: IsEntry(v', l1) ==> IsEntry(v, l1) && EntryAt(v, l1, v.dirs[l1.dir][l1.idx].fcb);
  }

  /** Removing an entry takes its path away and no other. */
  lemma RemovedPaths(cs: nat, v: View, l: Loc, f: Fcb, later: Stamp, v': View)
    requires Removed(v, l, f, later, v') && Coherent(cs, v, ROOT) && NamesOk(v) && NamesOk(v')
    ensures forall q, l1 :: Reaches(v', q, l1) <==> Reaches(v, q, l1) && l1 != l
  {
    hide Removed, Coherent, NamesOk, Reaches, Carried, EntryAt, ToStr;
    RemovedCarries(cs, v, l, f, later, v');
    RemovedEntry(v, l, f, later, v');
    forall q, l1 | Reaches(v, q, l1) && l1 != l ensures Reaches(v', q, l1) { StillReached(v, v', {l}, q, l1); }
    forall q, l1 | Reaches(v', q, l1) ensures Reaches(v, q, l1) && l1 != l {
      StillReached(v', v, {}, q, l1);
      FollowIsEntry(v', q, l1);
    }
  }

  lemma FollowIsEntry(v: View, p: seq<Str>, l: Loc)
    requires Reaches(v, p, l)
    ensures IsEntry(v, l)
  {
    hide Follow, ToStr;
    FollowFacts(v, p, l);
  }

  /** Writing, truncating and touching a file move no path. */
  lemma RewrittenPaths(cs: nat, v: View, v': View, l: Loc, f: Fcb, f': Fcb)
    requires Coherent(cs, v, ROOT) && Coherent(cs, v', ROOT) && NamesOk(v) && NamesOk(v') && v'.dirs.Keys == v.dirs.Keys
    requires EntryAt(v, l, f) && f'.name == f.name && f'.attr == f.attr && (f.IsDir() ==> f'.start == f.start)
    requires forall l1, f1 :: EntryAt(v', l1, f1) <==> if l1 == l then f1 == f' else EntryAt(v, l1, f1)
    ensures forall q, l1 :: Reaches(v', q, l1) <==> Reaches(v, q, l1)
  {
    hide Coherent, NamesOk, Reaches;
    assert EntryAt(v', l, f');
    RewrittenCarries(cs, v, v', l, f, f');
    RewrittenCarries(cs, v', v, l, f', f);
    forall q, l1 | Reaches(v, q, l1) ensures Reaches(v', q, l1) { StillReached(v, v', {}, q, l1); }
    forall q, l1 | Reaches(v', q, l1) ensures Reaches(v, q, l1) { StillReached(v', v, {}, q, l1); }
  }

  lemma RewrittenCarries(cs: nat, v: View, v': View, l: Loc, f: Fcb, f': Fcb)
    requires Coherent(cs, v, ROOT) && v'.dirs.Keys == v.dirs.Keys
    requires EntryAt(v, l, f) && f'.name == f.name && (f.IsDir() ==> f'.start == f.start)
    requires forall l1, f1 :: EntryAt(v', l1, f1) <==> if l1 == l then f1 == f' else EntryAt(v, l1, f1)
    ensures Carried(v, v', {})
  {
    hide Coherent;
    StartIsDir(cs, v, l, f);
    forall l1, f1 | EntryAt(v, l1, f1) ensures KeptAt(v', l1, f1) {
      assert EntryAt(v', l1, if l1 == l then f' else f1);
    }
  }

  // --- the shell's methods ----------------------------------------------------------------------------

  /** A directory, or a file without clusters, below which every name is looked up in vain. */
  predicate PassesThrough(f: Fcb) { f.IsDir() || f.start == 0 }

  /** Every component before the last, if it leads anywhere, leads to such an entry. */
  predicate ThroughDirs(v: View, parts: seq<Str>)
  {
    forall i :: 1 <= i < |parts| && Follow(v, parts[..i]).Success? ==> PassesThrough(Follow(v, parts[..i]).value.1)
  }

  /** A path that stops somewhere goes no further. */
  lemma {:induction false} FollowFails(v: View, parts: seq<Str>, i: nat)
    requires 1 <= i <= |parts| && Follow(v, parts[..i]).Failure?
    ensures Follow(v, parts) == Follow(v, parts[..i])
    decreases |parts|
  {
    if i < |parts| {
      var init := parts[..|parts| - 1];
      assert init[..i] == parts[..i];
      FollowFails(v, init, i);
    } else {
      assert parts[..i] == parts;
    }
  }

  /** Without its leading slash a canonical path splits into its components. */
  lemma WithoutSlash(stack: seq<Str>)
    requires Components(stack) && stack != []
    ensures Absolute(PathOf(stack)) && PathOf(stack) != [SLASH]
    ensures TrimSlashes(PathOf(stack)) == PathOf(stack)[1..] && Split(PathOf(stack)[1..], SLASH) == stack
  {
    RootIsOnly(stack);
    var rest := Join(stack, SLASH);
    assert PathOf(stack)[1..] == rest;
    forall i | 0 <= i < |stack| ensures SLASH !in stack[i] { assert Component(stack[i]); }
    SplitJoin(stack, SLASH);
    JoinHead(stack);
    hide Split, Join;
    assert TrimSlashes(rest) == rest;
  }

  lemma JoinHead(stack: seq<Str>)
    requires Components(stack) && stack != []
    ensures Join(stack, SLASH) != [] && Join(stack, SLASH)[0] != SLASH
  {
    assert Component(stack[0]);
    assert Join(stack, SLASH)[0] == stack[0][0];
  }

  function TrimSlashes(s: Str): Str { if s != [] && s[0] == SLASH then TrimSlashes(s[1..]) else s }

  lemma StackIsClean(cwd: Str, raw: Str)
    requires raw != []
    ensures Components(StackOf(cwd, raw)) && FromCwd(cwd, raw) == Success(PathOf(StackOf(cwd, raw)))
  {
    SplitClean(Joined(cwd, raw), SLASH);
    hide Split;
    PushAllComponents([], Split(Joined(cwd, raw), SLASH));
  }

  lemma StackOfPath(cwd: Str, stack: seq<Str>)
    requires Components(stack)
    ensures StackOf(cwd, PathOf(stack)) == stack
  {
    hide Split, PushAll, Component;
    hide Join;
    PathIsAbsolute(stack);
    ComponentsOf(stack);
  }

  lemma RootIsIn(fs: MyFileSystem)
    requires fs.Intact()
    ensures ROOT in fs.view.dirs
  {
    hide MyFileSystem.Ready, Coherent;
    RootIsNotStale(fs.cs, fs.view, ROOT);
  }

  lemma FollowedIsDir(fs: MyFileSystem, p: seq<Str>)
    requires fs.Intact() && p != [] && Components(p) && Follow(fs.view, p).Success?
    ensures Follow(fs.view, p).value.1.start in fs.view.dirs <==> Follow(fs.view, p).value.1.IsDir()
  {
    hide MyFileSystem.Ready, Coherent, Follow, ToStr;
    var found := Follow(fs.view, p).value;
    FollowFacts(fs.view, p, found.0);
    StartIsDir(fs.cs, fs.view, found.0, found.1);
  }

  method LookUpIn(fs: MyFileSystem, d: nat, name: Str) returns (r: Result<(Loc, Fcb)>)
    requires fs.Intact() && (d in fs.view.dirs || d == 0)
    ensures r == Find(fs.view, d, name)
  {
    hide MyFileSystem.Ready, Coherent, HandlesOk, Normalize, FindName;
    r := fs.Lookup(d, name);
  }

  /** Looks the components of the path up one by one. */
  method ResolveTarget(fs: MyFileSystem, cwd: Str, raw: Str) returns (r: Result<Target>)
    requires fs.Intact() && ThroughDirs(fs.view, StackOf(cwd, raw))
    ensures r == Resolved(fs.view, cwd, raw)
  {
    hide MyFileSystem.Intact, Find, StackOf, Split, Component, Normalize, FindName, TrimSlashes, PathOf, PushAll,
      Joined;
    var canonical :- FromCwdStr(cwd, raw);
    ghost var stack := StackOf(cwd, raw);
    StackIsClean(cwd, raw);
    RootPath(stack);
    if canonical == [SLASH] {
      return Success(RootDir);
    }
    WithoutSlash(stack);
    var parts := Split(TrimSlashes(canonical), SLASH);
    var current := ROOT;
    var last: Option<(Loc, Fcb)> := None;
    RootIsIn(fs);
    for i := 0 to |parts|
      invariant i == 0 ==> current == ROOT
      invariant i > 0 ==> last.Some? && Follow(fs.view, parts[..i]) == Success(last.value)
      invariant i > 0 ==> current == last.value.1.start
    {
      assert parts[..i + 1][..i] == parts[..i];
      if i > 0 { FollowedIsDir(fs, parts[..i]); }
      var found := LookUpIn(fs, current, parts[i]);
      assert Follow(fs.view, parts[..i + 1]) == found;
      if found.Failure? {
        FollowFails(fs.view, parts, i + 1);
        return Failure(found.error);
      }
      current := found.value.1.start;
      last := Some(found.value);
    }
    assert parts[..|parts|] == parts;
    return Success(Entry(last.value.0, last.value.1, canonical));
  }

  lemma RootPath(stack: seq<Str>)
    requires Components(stack)
    ensures PathOf(stack) == [SLASH] <==> stack == []
  {
    if stack != [] { RootIsOnly(stack); }
  }

  /** The directory and the name that the last component of a path stands for. */
  function ParentOfPath(v: View, stack: seq<Str>): Result<(nat, Str)>
  {
    if stack == [] then Failure(InvalidPath)
    else
      var init, name := stack[..|stack| - 1], stack[|stack| - 1];
      if init == [] then Success((ROOT, name))
      else
        match Follow(v, init)
        case Failure(error) => Failure(error)
        case Success(found) => if found.1.IsDir() then Success((found.1.start, name)) else Failure(NotADirectory)
  }

  method ResolveParentAndName(fs: MyFileSystem, cwd: Str, raw: Str) returns (r: Result<(nat, Str)>)
    requires fs.Intact()
    requires StackOf(cwd, raw) != [] ==> ThroughDirs(fs.view, StackOf(cwd, raw)[..|StackOf(cwd, raw)| - 1])
    ensures r == if raw == [] then Failure(InvalidPath) else ParentOfPath(fs.view, StackOf(cwd, raw))
    ensures r.Success? ==> r.value.0 in fs.view.dirs
  {
    hide MyFileSystem.Intact, StackOf, Split, Component, PathOf, Follow, ThroughDirs, ParentAndName,
      PushAll, Joined;
    RootIsIn(fs);
    var canonical :- FromCwdStr(cwd, raw);
    ghost var stack := StackOf(cwd, raw);
    StackIsClean(cwd, raw);
    RootPath(stack);
    if canonical == [SLASH] {
      return Failure(InvalidPath);
    }
    ParentAndNameOf(stack);
    var (parentPath, name) := ParentAndName(canonical);
    ghost var init := stack[..|stack| - 1];
    StackOfPath(cwd, init);
    PathIsAbsolute(init);
    var target := ResolveTarget(fs, cwd, parentPath);
    if target.Failure? {
      return Failure(target.error);
    }
    if target.value.RootDir? {
      return Success((ROOT, name));
    }
    FollowedIsDir(fs, init);
    var fcb := target.value.fcb;
    if !fcb.IsDir() {
      return Failure(NotADirectory);
    }
    return Success((fcb.start as nat, name));
  }

  /** Directory and name for a new entry, or why there are none. */
  function ParentFor(v: View, cwd: Str, raw: Str): Result<(nat, Str)>
  {
    if raw == [] then Failure(InvalidPath) else ParentOfPath(v, StackOf(cwd, raw))
  }

  predicate ParentThroughDirs(v: View, stack: seq<Str>) { stack != [] ==> ThroughDirs(v, stack[..|stack| - 1]) }

  /** The last component of a path: the name of what it stands for. */
  function LastName(cwd: Str, raw: Str): Str { var s := StackOf(cwd, raw); if s == [] then [] else s[|s| - 1] }

  /**
   Creating a file by its path: what comes of it depends on the directory, the name and the space. Afterwards
   the path leads to the file, and every other path where it led before.
   */
  method CreateAt(fs: MyFileSystem, cwd: Str, raw: Str, now: Stamp, later: Stamp) returns (r: Result<Loc>)
    requires fs.Intact() && ParentThroughDirs(fs.view, StackOf(cwd, raw))
    modifies fs, fs.device.inner
    ensures (fs.Steady() && fs.Intact()) || (fs.Faulted() && r == Failure(DeviceFault))
    ensures fs.Steady() ==> r == match ParentFor(old(fs.view), cwd, raw)
      case Failure(error) => Failure(error)
      case Success((d, name)) =>
        match CreateCheck(old(fs.view), d, name)
        case Fail(error) => Failure(error)
        case Pass =>
          if SlotIsFree(old(fs.view), d) || old(fs.FreeCount()) > 0 then Success(SlotFor(old(fs.view), d))
          else Failure(NoSpace)
    ensures fs.Steady() && r.Failure? ==> fs.view == old(fs.view)
    ensures r.Success? && old(NamesOk(fs.view)) && Untrimmed(LastName(cwd, raw)) ==>
      NamesOk(fs.view)
      && CreatedAt(old(fs.view), cwd, raw, r.value, NewFcb(StoredName(LastName(cwd, raw)), File, 0, now), fs.view)
  {
    hide MyFileSystem.Intact, MyFileSystem.Sized, StackOf, NamesOk, ThroughDirs, CreateCheck, SlotFor, SlotIsFree,
      Added,
      Lost, Follow, Untrimmed, Component, CreatedAt, SlotCounts, RoomCounts;
    ghost var v := fs.view;
    ValidTree(fs);
    var at := ResolveParentAndName(fs, cwd, raw);
    if at.Failure? {
      return Failure(at.error);
    }
    var (parent, name) := at.value;
    SlotForIn(v, parent);
    r := fs.CreateFile(parent, name, now, later);
    if r.Success? && NamesOk(v) && Untrimmed(name) {
      CreateKeepsAllNames(v, r.value, name, File, 0, now, later, fs.view);
      ValidTree(fs);
      CreatedHere(fs.cs, v, cwd, raw, r.value, name, NewFcb(StoredName(name), File, 0, now), later, fs.view);
    }
  }

  /** `l` holds the new entry `f`, which `raw` resolves to; all other paths are as they were. */
  ghost predicate CreatedAt(v: View, cwd: Str, raw: Str, l: Loc, f: Fcb, v': View)
  {
    var stack := StackOf(cwd, raw);
    && Resolved(v', cwd, raw) == Success(Entry(l, f, PathOf(stack))) && Resolved(v, cwd, raw) == Failure(NotFound)
    && forall q, l1 :: Reaches(v', q, l1) <==> Reaches(v, q, l1) || (q == stack && l1 == l)
  }

  /** Making a directory by its path. Its cluster is claimed first and lost if there is no room for its entry. */
  method MakeDirAt(fs: MyFileSystem, cwd: Str, raw: Str, now: Stamp, later: Stamp) returns (r: Result<Loc>)
    requires fs.Intact() && ParentThroughDirs(fs.view, StackOf(cwd, raw))
    modifies fs, fs.device.inner
    ensures (fs.Steady() && fs.Intact()) || (fs.Faulted() && r == Failure(DeviceFault))
    ensures fs.Steady() ==> r == match ParentFor(old(fs.view), cwd, raw)
      case Failure(error) => Failure(error)
      case Success((d, name)) =>
        match CreateCheck(old(fs.view), d, name)
        case Fail(error) => Failure(error)
        case Pass =>
          if old(fs.FreeCount()) > (if SlotIsFree(old(fs.view), d) then 0 else 1) then Success(SlotFor(old(fs.view), d))
          else Failure(NoSpace)
    ensures fs.Steady() && r.Failure? ==> fs.view.dirs == old(fs.view.dirs)
    ensures r.Success? && old(NamesOk(fs.view)) && Untrimmed(LastName(cwd, raw)) ==>
      NamesOk(fs.view) && exists id: u16 ::
        CreatedAt(old(fs.view), cwd, raw, r.value, NewFcb(StoredName(LastName(cwd, raw)), Directory, id, now), fs.view)
  {
    hide MyFileSystem.Intact, MyFileSystem.Sized, StackOf, NamesOk, ThroughDirs, CreateCheck, SlotFor, SlotIsFree,
      Added,
      Lost, Follow, Untrimmed, Component, CreatedAt, SlotCounts, RoomCounts, SameEntries, FirstFit;
    ghost var v := fs.view;
    ValidTree(fs);
    var at := ResolveParentAndName(fs, cwd, raw);
    if at.Failure? {
      return Failure(at.error);
    }
    var (parent, name) := at.value;
    SlotForIn(v, parent);
    FatSized(fs);
    ghost var c := FirstFit(fs.fat, fs.max);
    r := fs.Mkdir(parent, name, now, later);
    if r.Success? && NamesOk(v) && Untrimmed(name) {
      CreateKeepsAllNames(v, r.value, name, NodeKind.Directory, c, now, later, fs.view);
      ValidTree(fs);
      CreatedHere(fs.cs, v, cwd, raw, r.value, name, NewFcb(StoredName(name), NodeKind.Directory, c, now), later,
        fs.view);
    }
  }

  lemma FatSized(fs: MyFileSystem)
    requires fs.Intact()
    ensures fs.Sized() && fs.max < |fs.fat|
  {
  }

  lemma ValidTree(fs: MyFileSystem)
    requires fs.Intact()
    ensures Coherent(fs.cs, fs.view, ROOT)
  {
    hide MyFileSystem.Ready, Coherent;
  }

  lemma CreatedHere(cs: nat, v: View, cwd: Str, raw: Str, l: Loc, name: Str, f: Fcb, later: Stamp, v': View)
    requires Coherent(cs, v, ROOT) && Coherent(cs, v', ROOT) && NamesOk(v) && NamesOk(v')
    requires raw != [] && ParentOfPath(v, StackOf(cwd, raw)) == Success((l.dir, name)) && l.dir in v.dirs
    requires CreateCheck(v, l.dir, name).Pass? && Untrimmed(name)
    requires Added(v, l, f, later, v') && f.name == StoredName(name)
    ensures CreatedAt(v, cwd, raw, l, f, v')
  {
    hide Coherent, NamesOk, StackOf, Added, Follow, ToStr, Component, Untrimmed, TryFrom, Normalize, FindName, Reaches;
    var stack := StackOf(cwd, raw);
    var init := stack[..|stack| - 1];
    StackIsClean(cwd, raw);
    assert Component(name);
    KeyOfComponent(name);
    assert stack == init + [name];
    CreatedPaths(cs, v, l, f, later, v', init);
    NotThereYet(v, stack, l.dir, name);
  }

  /** A proper component under which an entry can be found is stored and looked up as it is. */
  lemma KeyOfComponent(name: Str)
    requires Component(name) && Normalize(name).Success? && Untrimmed(name)
    ensures ToStr(StoredName(name)) == name && Normalize(name) == Success(name)
  {
    hide ToStr, TryFrom, Untrimmed, ToUpper;
    StoredNameMatchesKey(name);
    NormalizeTwice(name);
  }

  lemma NotThereYet(v: View, stack: seq<Str>, d: nat, name: Str)
    requires ParentOfPath(v, stack) == Success((d, name)) && d in v.dirs && CreateCheck(v, d, name).Pass?
    ensures Follow(v, stack) == Failure(NotFound)
  {
    hide Normalize, FindName;
  }

  /** Removing a file by its path: afterwards that path leads nowhere, and every other path where it led before. */
  method RemoveAt(fs: MyFileSystem, cwd: Str, raw: Str, later: Stamp) returns (r: Outcome)
    requires fs.Intact() && ThroughDirs(fs.view, StackOf(cwd, raw))
    modifies fs, fs.device.inner
    ensures (fs.Steady() && fs.Intact()) || (fs.Faulted() && r == Fail(DeviceFault))
    ensures fs.Steady() ==> r == match Resolved(old(fs.view), cwd, raw)
      case Failure(error) => Fail(error)
      case Success(RootDir) => Fail(InvalidPath)
      case Success(Entry(l, f, _)) =>
        if f.IsDir() then Fail(IsADirectory) else if IsOpen(old(fs.openFiles), l) then Fail(FileOpen(l)) else Pass
    ensures fs.Steady() && r.Fail? ==> fs.view == old(fs.view)
    ensures r.Pass? && old(NamesOk(fs.view)) ==> NamesOk(fs.view) && RemovedAt(old(fs.view), cwd, raw, fs.view)
  {
    hide MyFileSystem.Intact, MyFileSystem.Sized, StackOf, NamesOk, ThroughDirs, Removed, Lost, Follow, Component,
      RemovedAt, IsOpen, SlotCounts;
    ghost var v := fs.view;
    ValidTree(fs);
    var found := ResolveTarget(fs, cwd, raw);
    if found.Failure? {
      return Fail(found.error);
    }
    if found.value.RootDir? {
      return Fail(InvalidPath);
    }
    var loc := found.value.loc;
    StackIsClean(cwd, raw);
    FollowFacts(v, StackOf(cwd, raw), loc);
    r := fs.Rm(loc, later);
    if r.Pass? && NamesOk(v) {
      RemoveKeepsAllNames(v, loc, found.value.fcb, later, fs.view);
      RemovedHere(fs.cs, v, cwd, raw, loc, found.value.fcb, later, fs.view);
    }
  }

  /** Removing a directory by its path. */
  method RemoveDirAt(fs: MyFileSystem, cwd: Str, raw: Str, later: Stamp) returns (r: Outcome)
    requires fs.Intact() && ThroughDirs(fs.view, StackOf(cwd, raw))
    modifies fs, fs.device.inner
    ensures (fs.Steady() && fs.Intact()) || (fs.Faulted() && r == Fail(DeviceFault))
    ensures fs.Steady() ==> r == match Resolved(old(fs.view), cwd, raw)
      case Failure(error) => Fail(error)
      case Success(RootDir) => Fail(InvalidPath)
      case Success(Entry(_, f, _)) =>
        if !f.IsDir() then Fail(NotADirectory)
        else if DirBytes(old(fs.view), f.start) > 0 then Fail(DirectoryNotEmpty) else Pass
    ensures fs.Steady() && r.Fail? ==> fs.view == old(fs.view)
    ensures r.Pass? && old(NamesOk(fs.view)) ==> NamesOk(fs.view) && RemovedAt(old(fs.view), cwd, raw, fs.view)
  {
    hide MyFileSystem.Intact, MyFileSystem.Sized, StackOf, NamesOk, ThroughDirs, Removed, Lost, Follow, Component,
      RemovedAt, DirBytes, SlotCounts;
    ghost var v := fs.view;
    ValidTree(fs);
    var found := ResolveTarget(fs, cwd, raw);
    if found.Failure? {
      return Fail(found.error);
    }
    if found.value.RootDir? {
      return Fail(InvalidPath);
    }
    var loc := found.value.loc;
    StackIsClean(cwd, raw);
    FollowFacts(v, StackOf(cwd, raw), loc);
    r := fs.Rmdir(loc, later);
    if r.Pass? && NamesOk(v) {
      RemoveKeepsAllNames(v, loc, found.value.fcb, later, fs.view);
      RemovedHere(fs.cs, v, cwd, raw, loc, found.value.fcb, later, fs.view);
    }
  }

  /** `raw` resolved to an entry and does so no more; all other paths are as they were. */
  ghost predicate RemovedAt(v: View, cwd: Str, raw: Str, v': View)
  {
    var t := Resolved(v, cwd, raw);
    && t.Success? && t.value.Entry? && Resolved(v', cwd, raw).Failure?
    && forall q, l :: Reaches(v', q, l) <==> Reaches(v, q, l) && q != StackOf(cwd, raw)
  }

  lemma FollowReaches(v: View, p: seq<Str>)
    requires p != [] && Components(p)
    ensures Follow(v, p).Success? ==> Reaches(v, p, Follow(v, p).value.0)
    ensures forall l :: Reaches(v, p, l) ==> Follow(v, p).Success? && Follow(v, p).value.0 == l
  {
    hide Follow, Component;
  }

  lemma RemovedHere(cs: nat, v: View, cwd: Str, raw: Str, l: Loc, f: Fcb, later: Stamp, v': View)
    requires Coherent(cs, v, ROOT) && NamesOk(v) && NamesOk(v') && Removed(v, l, f, later, v')
    requires Resolved(v, cwd, raw).Success? && Resolved(v, cwd, raw).value.Entry?
    requires Resolved(v, cwd, raw).value.loc == l
    ensures RemovedAt(v, cwd, raw, v')
  {
    hide Coherent, NamesOk, StackOf, Removed, Follow, ToStr, Component, Reaches;
    StackIsClean(cwd, raw);
    var stack := StackOf(cwd, raw);
    FollowReaches(v, stack);
    FollowReaches(v', stack);
    FollowFacts(v, stack, l);
    RemovedEntry(v, l, f, later, v');
    SameEntry(v, l, f, l, Follow(v, stack).value.1);
    RemovedPaths(cs, v, l, f, later, v');
    forall q | Reaches(v, q, l) ensures q == stack { OnePath(cs, v, q, stack, l); }
  }
}
